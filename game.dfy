/** The `Game` of picopix-puzzle.js: scenes, levels, the held direction
    keys, the list of moving actors and `update`, driven by the frame loop
    of game-core.js. Each step of `update` is a method proved to follow its
    rule in `PuzzleRules`. */
module PuzzleGame {
  import opened RoomState
  import opened PuzzleRoom
  import opened PuzzleRules
  import opened Collections
  import opened FrameLoop
  import RoomFacts

  /** `obj.dx = d.0; obj.dy = d.1; obj.moving = true` on an actor of
      `room`. */
  method Launch(room: Room, obj: Actor, d: (int, int))
    requires obj in room.actors
    modifies obj
    ensures room.Snapshot() == Repose(old(room.Snapshot()), obj, Heading(old(obj.CurrentPose()), d))
  {
    PosesOfSplit(room.actors, obj);
    obj.dx, obj.dy, obj.moving := d.0, d.1, true;
    PosesOfFrame(room.actors - {obj});
    PosesOfSplit(room.actors, obj);
  }

  /** `obj.x_off += spd*dx*dt; obj.y_off += spd*dy*dt` on an actor of
      `room`, with `spd*dt` given as `step`. */
  method Nudge(room: Room, obj: Actor, step: int)
    requires obj in room.actors
    modifies obj
    ensures room.Snapshot() == Repose(old(room.Snapshot()), obj, Shift(old(room.Snapshot()).poses[obj], step))
  {
    PosesOfSplit(room.actors, obj);
    obj.xOff, obj.yOff := obj.xOff + step * obj.dx, obj.yOff + step * obj.dy;
    PosesOfFrame(room.actors - {obj});
    PosesOfSplit(room.actors, obj);
  }

  /** The reverse scan of the held events at the head of `update`: the
      first event met from the end, that is the most recent one, sets the
      direction, unless the player is already moving (`busy`). */
  method SelectIntent(events: seq<Event>, busy: bool) returns (go: bool, dx: int, dy: int)
    ensures (go && !busy) <==> Intent(events, busy).Some?
    ensures go && !busy ==> (dx, dy) == Delta(Intent(events, busy).value)
    ensures go == (busy || events != [])
  {
    go, dx, dy := busy, 0, 0;
    var i := |events| - 1;
    while i >= 0
      invariant -1 <= i < |events|
      invariant go == (busy || i < |events| - 1)
      invariant go && !busy ==> (dx, dy) == Delta(events[|events| - 1])
      decreases i
    {
      match events[i] {
        case MoveLeft =>
          if !go {
            dx, dy, go := -1, 0, true;
          }
        case MoveRight =>
          if !go {
            dx, dy, go := 1, 0, true;
          }
        case MoveUp =>
          if !go {
            dx, dy, go := 0, -1, true;
          }
        case MoveDown =>
          if !go {
            dx, dy, go := 0, 1, true;
          }
      }
      i := i - 1;
    }
  }

  /** Both halves of a push: the boulder `b`, then the player `p`, head
      in direction `d`. */
  method LaunchPair(room: Room, b: Actor, p: Actor, d: (int, int))
    requires b in room.actors && p in room.actors && b != p
    modifies b, p
    ensures var s := old(room.Snapshot());
      room.Snapshot() == s.(poses := s.poses[b := Heading(s.poses[b], d)][p := Heading(s.poses[p], d)])
  {
    ghost var s := room.Snapshot();
    Launch(room, b, d);
    Launch(room, p, d);
  }

  /** The collision check of `update` for a new move in direction `d`:
      walls and blocked boulders cancel it, a free boulder is pushed. */
  method StartMove(room: Room, player: Actor, queue: seq<Actor>, d: (int, int)) returns (q: seq<Actor>)
    requires room.Valid() && player in room.actors
    modifies room.actors
    ensures var r := Begin(old(room.Snapshot()), player, queue, d);
      room.Snapshot() == r.room && q == r.queue
    ensures room.Valid()
  {
    ghost var s := room.Snapshot();
    assert s.poses[player] == player.CurrentPose();
    var tx, ty := player.gridX + d.0, player.gridY + d.1;
    var obj := room.ObjectAt(tx, ty);
    if obj == Wall {
      BlockedMoveChangesNothing(s, player, queue, d);
      q := queue;
    } else if obj.Holds? {
      var beyond := room.ObjectAt(tx + d.0, ty + d.1);
      if beyond != Free {
        BlockedMoveChangesNothing(s, player, queue, d);
        q := queue;
      } else {
        q := Push(room, player, obj.actor, queue, d);
      }
    } else {
      q := StepOff(room, player, queue, d);
    }
  }

  /** The push branch of the collision check: the boulder ahead of the
      player has a free cell behind it, so both set off and are queued. */
  method Push(room: Room, player: Actor, b: Actor, queue: seq<Actor>, d: (int, int))
    returns (q: seq<Actor>)
    requires room.Valid() && player in room.actors
    requires var s := room.Snapshot();
      var t := (s.poses[player].gridX + d.0, s.poses[player].gridY + d.1);
      s.At(t.0, t.1) == Holds(b) && s.At(t.0 + d.0, t.1 + d.1) == Free
    modifies room.actors
    ensures var r := Begin(old(room.Snapshot()), player, queue, d);
      room.Snapshot() == r.room && q == r.queue
    ensures room.Valid()
  {
    ghost var s := room.Snapshot();
    PushQueuesBoulderFirst(s, player, queue, d, b);
    assert b in room.actors;
    LaunchPair(room, b, player, d);
    q := queue + [b, player];
  }

  /** The free branch of the collision check: only the player sets off. */
  method StepOff(room: Room, player: Actor, queue: seq<Actor>, d: (int, int))
    returns (q: seq<Actor>)
    requires room.Valid() && player in room.actors
    requires var s := room.Snapshot();
      s.At(s.poses[player].gridX + d.0, s.poses[player].gridY + d.1) == Free
    modifies room.actors
    ensures var r := Begin(old(room.Snapshot()), player, queue, d);
      room.Snapshot() == r.room && q == r.queue
    ensures room.Valid()
  {
    ghost var s := room.Snapshot();
    FreeStepQueuesPlayer(s, player, queue, d);
    Launch(room, player, d);
    assert room.Snapshot() == s.(poses := s.poses[player := Heading(s.poses[player], d)]);
    q := queue + [player];
  }

  /** One actor's turn in the tick loop of `update`: advance it and, once
      it has covered a tile, commit it with `move_to`. */
  method Tick(room: Room, obj: Actor, step: int)
    requires room.Valid() && obj in room.actors
    modifies room, room.actors
    ensures room.Valid() && room.actors == old(room.actors)
    ensures room.player == old(room.player) && room.boulders == old(room.boulders)
    ensures room.Snapshot() == Advance(old(room.Snapshot()), obj, step)
  {
    ghost var s := room.Snapshot();
    ReposeValid(s, obj, Shift(s.poses[obj], step));
    Nudge(room, obj, step);
    CommitMove(room, obj);
  }

  /** The end of an actor's turn in the tick loop: `move_to` on the next
      cell once the offsets have covered a tile. */
  method CommitMove(room: Room, obj: Actor)
    requires room.Snapshot().Valid() && obj in room.actors
    requires room.player != null ==> room.player in room.actors
    requires forall b | b in room.boulders :: b in room.actors
    modifies room, room.actors
    ensures room.Valid() && room.actors == old(room.actors)
    ensures room.player == old(room.player) && room.boulders == old(room.boulders)
    ensures room.Snapshot() == Commit(old(room.Snapshot()), obj)
  {
    ghost var s1 := room.Snapshot();
    ghost var p := s1.poses[obj];
    assert p == obj.CurrentPose();
    if Abs(obj.xOff) >= TileSize || Abs(obj.yOff) >= TileSize {
      var x, y := obj.gridX + obj.dx, obj.gridY + obj.dy;
      assert x == p.gridX + p.dx && y == p.gridY + p.dy && Reached(p);
      assert Commit(s1, obj) == MoveSpec(s1, obj, x, y);
      room.MoveTo(obj, x, y);
    } else {
      assert !Reached(p);
    }
  }

  /** The tick loop over `queue` from room `s0` has handled the entries
      from `i` on: the room is `cur`, and the list is the untouched entries
      before `i` followed by those kept. */
  ghost predicate SweptTo(s0: State, queue: seq<Actor>, step: int, i: int,
                          cur: State, list: seq<Actor>, stopped: bool)
  {
    s0.Valid() && (forall a | a in queue :: a in s0.poses) && 0 <= i <= |queue| &&
    cur == SweepFrom(s0, queue, i, step).room &&
    list == queue[..i] + SweepFrom(s0, queue, i, step).kept &&
    stopped == SweepFrom(s0, queue, i, step).anyStopped
  }

  /** Handling entry `i` extends the sweep by one: the actor advances, and
      it is spliced out of the list exactly when it has stopped. */
  lemma SweptStep(s0: State, queue: seq<Actor>, step: int, i: int,
                  cur: State, list: seq<Actor>, stopped: bool)
    requires 0 <= i < |queue| && SweptTo(s0, queue, step, i + 1, cur, list, stopped)
    ensures cur.Valid() && queue[i] in cur.poses && i < |list| && list[i] == queue[i]
    ensures var r := Advance(cur, queue[i], step);
      var still := r.poses[queue[i]].moving;
      SweptTo(s0, queue, step, i, r, if still then list else list[..i] + list[i + 1..],
              stopped || !still)
  {
    var rest := SweepFrom(s0, queue, i + 1, step);
    assert SweepFrom(s0, queue, i, step) == Handle(rest, queue[i], step);
    SpliceAt(queue, rest.kept, list, i);
  }

  /** Sequence facts behind `SweptStep`: in `queue[..i + 1] + kept`, entry
      `i` is `queue[i]`, and cutting it out leaves `queue[..i] + kept`. */
  lemma SpliceAt<T>(queue: seq<T>, kept: seq<T>, list: seq<T>, i: int)
    requires 0 <= i < |queue| && list == queue[..i + 1] + kept
    ensures i < |list| && list[i] == queue[i]
    ensures list[..i] == queue[..i] && list[i + 1..] == kept
    ensures queue[..i + 1] == queue[..i] + [queue[i]]
    ensures list == queue[..i] + ([queue[i]] + kept)
    ensures list[..i] + list[i + 1..] == queue[..i] + ([] + kept)
  {
    assert list[..i] == queue[..i];
    assert list[i + 1..] == kept;
  }

  /** One pass of the tick loop of `update`, on entry `i` of the list,
      after the entries behind it have been handled: tick the actor and
      splice it out of the list once it has stopped. */
  method SweepEntry(room: Room, queue: seq<Actor>, step: int, ghost s0: State, i: int,
                    list: seq<Actor>, stopped: bool)
    returns (list': seq<Actor>, stopped': bool)
    requires 0 <= i < |queue| && SweptTo(s0, queue, step, i + 1, room.Snapshot(), list, stopped)
    requires room.Valid() && forall a | a in queue :: a in room.actors
    modifies room, room.actors
    ensures room.Valid() && room.actors == old(room.actors)
    ensures room.player == old(room.player) && room.boulders == old(room.boulders)
    ensures SweptTo(s0, queue, step, i, room.Snapshot(), list', stopped')
  {
    SweptStep(s0, queue, step, i, room.Snapshot(), list, stopped);
    var obj := list[i];
    Tick(room, obj, step);
    assert obj.moving == room.Snapshot().poses[obj].moving;
    list', stopped' := list, stopped;
    if !obj.moving {
      list' := list[..i] + list[i + 1..];
      stopped' := true;
    }
  }

  /** The tick loop of `update`: from the last entry of `queue` to the
      first, advance the actor, commit it with `move_to` once it has
      covered a tile, and drop it from the list once it has stopped. */
  method Sweep(room: Room, queue: seq<Actor>, step: int) returns (kept: seq<Actor>, stopped: bool)
    requires room.Valid() && forall a | a in queue :: a in room.actors
    modifies room, room.actors
    ensures room.Valid() && room.actors == old(room.actors)
    ensures room.player == old(room.player) && room.boulders == old(room.boulders)
    ensures SweptTo(old(room.Snapshot()), queue, step, 0, room.Snapshot(), kept, stopped)
  {
    ghost var s0 := room.Snapshot();
    kept, stopped := queue, false;
    var i := |queue| - 1;
    assert queue[..i + 1] == queue;
    while i >= 0
      invariant -1 <= i < |queue|
      invariant room.Valid() && room.actors == old(room.actors)
      invariant room.player == old(room.player) && room.boulders == old(room.boulders)
      invariant SweptTo(s0, queue, step, i + 1, room.Snapshot(), kept, stopped)
    {
      kept, stopped := SweepEntry(room, queue, step, s0, i, kept, stopped);
      i := i - 1;
    }
  }

  /** The head of `update` in the playing scene: the held keys choose a
      direction and, unless the player is already moving, the collision
      check sets it off. */
  method SetOff(room: Room, player: Actor, events: seq<Event>, moving: seq<Actor>) returns (q: seq<Actor>)
    requires room.Valid() && player in room.actors && forall a | a in moving :: a in room.actors
    modifies room.actors
    ensures room.Valid() && forall a | a in q :: a in room.actors
    ensures room.Snapshot() == Started(old(room.Snapshot()), player, events, moving).room
    ensures q == Started(old(room.Snapshot()), player, events, moving).queue
  {
    ghost var s := room.Snapshot();
    assert s.poses[player] == player.CurrentPose();
    var busy := player.moving;
    var go, dx, dy := SelectIntent(events, busy);
    q := moving;
    if go && !busy {
      q := StartMove(room, player, q, (dx, dy));
    } else {
      NoIntentNoStart(s, player, events, moving);
    }
  }

  /** `update` in the playing scene on the room: set off, tick every
      moving actor, and check for a win. */
  method PlayRoom(room: Room, player: Actor, events: seq<Event>, moving: seq<Actor>, step: int)
    returns (kept: seq<Actor>, won: bool)
    requires Hosts(room, player, moving)
    modifies room, room.actors
    ensures Hosts(room, player, kept) && room.actors == old(room.actors)
    ensures room.boulders == old(room.boulders)
    ensures PlayStep(old(room.Snapshot()), player, events, moving, step) == Play(room.Snapshot(), kept, won)
  {
    ghost var s := room.Snapshot();
    var q := SetOff(room, player, events, moving);
    ghost var b := room.Snapshot();
    var stopped;
    kept, stopped := Sweep(room, q, step);
    assert room.Snapshot().poses[player] == player.CurrentPose();
    won := stopped && room.floor[player.gridX][player.gridY] == '@';
  }

  /** The level data the game needs: a well-formed level with a player. */
  ghost predicate Playable(lv: Level)
  {
    LevelOk(lv) &&
    exists x, y | 0 <= x < |lv.tiles[0]| && 0 <= y < |lv.tiles| :: TileGlyph(lv.tiles, x, y) == '^'
  }

  /** The `Room` constructor as `reset` relies on it: a valid room whose
      player is one of its actors. */
  method NewRoom(lv: Level) returns (r: Room)
    requires Playable(lv)
    ensures fresh(r) && fresh(r.actors) && r.Valid() && Built(r, lv)
    ensures r.player != null && r.player in r.actors
  {
    r := new Room(lv);
    RoomFacts.ScanFinds(lv.tiles, r.width, '^');
  }

  /** `r` is `new Room(lv)`: the level's size and buttons, every cell
      classified from its glyph, every actor resting where it was found,
      the boulders in scan order and the player at the last `^`. */
  ghost predicate Built(r: Room, lv: Level)
    reads r, r.actors
  {
    BuiltFrom(lv, r.width, r.height, r.buttons, r.floor, r.occupied, PosesOf(r.actors), r.boulders, r.player)
  }

  /** `Built` on the room's fields, read once. */
  ghost predicate BuiltFrom(lv: Level, width: nat, height: nat, buttons: map<nat, Button>,
                            floor: seq<seq<char>>, occupied: seq<seq<Cell>>, poses: map<Actor, Pose>,
                            boulders: seq<Actor>, player: Actor?)
  {
    |lv.tiles| > 0 && width == |lv.tiles[0]| && height == |lv.tiles| && buttons == lv.buttons &&
    GridShaped(floor, width, height) && GridShaped(occupied, width, height) &&
    GridScanned(lv.tiles, floor, occupied, width, height, width, 0) &&
    AllResting(occupied, poses, width, height) &&
    ListedAt(boulders, poses, ScanOrder(lv.tiles, width, 0, '*')) &&
    LastAt(player, poses, ScanOrder(lv.tiles, width, 0, '^'))
  }

  /** Every level is playable, and there is at least one. */
  ghost predicate LevelsOk(levels: seq<Level>)
  {
    |levels| > 0 && forall k | 0 <= k < |levels| :: Playable(levels[k])
  }

  /** The scenes and the level index agree: playing or having won a level
      names a level that exists, and the last scene comes after them all. */
  predicate ScenesOk(scene: int, level: int, count: int)
  {
    0 <= scene <= 3 && 0 <= level <= count &&
    (scene == 1 || scene == 2 ==> level < count) &&
    (scene == 3 ==> level == count)
  }

  /** A valid room whose player is `player` and which owns every actor of
      `moving`. */
  ghost predicate Hosts(room: Room, player: Actor?, moving: seq<Actor>)
    reads room, room.actors
  {
    room.Valid() && player == room.player && player != null && player in room.actors &&
    forall a | a in moving :: a in room.actors
  }

  class Game {
    /** `resource.data.levels`. */
    const levels: seq<Level>
    /** The loading counter and the pending frame of game-core.js. */
    const loop: Loop
    /** 0 title, 1 playing, 2 level won, 3 all levels done. */
    var scene: int
    var level: int
    var room: Room?
    var player: Actor?
    /** `player.events`: the held direction keys, oldest first. */
    var events: EventList<Event>
    /** `moving`: the actors between two cells, handled last first. */
    var moving: seq<Actor>
    var paused: bool

    ghost predicate Valid()
      reads this, loop, events, room, if room != null then room.actors else {}
    {
      loop.Valid() && events.Valid() && LevelsOk(levels) && ScenesOk(scene, level, |levels|) &&
      (scene != 0 ==> room != null && Hosts(room, player, moving))
    }

    /** `new Game(...)` with `init`: one load outstanding, then `run`
        absorbs it, so no frame is requested until the levels arrive. */
    constructor (levels: seq<Level>)
      requires LevelsOk(levels)
      ensures Valid() && fresh(loop) && fresh(events)
      ensures this.levels == levels && scene == 0 && !paused && events.items == []
      ensures loop.loadingProgress == 0 && !loop.framePending
    {
      this.levels := levels;
      loop := new Loop();
      events := new EventList();
      scene, level := 0, 0;
      room, player := null, null;
      moving := [];
      paused := false;
      new;
      loop.BeginLoad();
      loop.Run();
    }

    /** `run`, called back once the levels have loaded and after a key
        that starts a level. */
    method Run()
      requires Valid()
      modifies loop
      ensures Valid()
      ensures old(loop.loadingProgress) == 0 ==> loop.loadingProgress == 0 && loop.framePending
      ensures old(loop.loadingProgress) > 0 ==>
        loop.loadingProgress == old(loop.loadingProgress) - 1 && loop.framePending == old(loop.framePending)
    {
      loop.Run();
    }

    /** `reset`: a fresh room for the current level, no held keys and no
        moving actors. */
    method Reset()
      requires 0 <= level < |levels| && Playable(levels[level])
      modifies this
      ensures scene == old(scene) && level == old(level) && paused == old(paused)
      ensures fresh(room) && fresh(room.actors) && room.Valid() && Built(room, levels[level])
      ensures player == room.player && player != null && player in room.actors
      ensures fresh(events) && events.Valid() && events.items == [] && moving == []
    {
      var r := NewRoom(levels[level]);
      Install(r, levels[level]);
    }

    /** The assignments of `reset` once the room is built. */
    method Install(r: Room, ghost lv: Level)
      requires r.Valid() && Built(r, lv) && r.player != null && r.player in r.actors
      modifies this
      ensures room == r && room.Valid() && Built(room, lv) && player == room.player && player != null && player in room.actors
      ensures moving == []
      ensures fresh(events) && events.Valid() && events.items == []
      ensures scene == old(scene) && level == old(level) && paused == old(paused)
    {
      room := r;
      player := r.player;
      events := new EventList();
      moving := [];
      PosesOfFrame(r.actors);
      assert r.Snapshot() == old(r.Snapshot());
    }

    /** `update` in the playing scene. */
    method Play(step: int) returns (won: bool)
      requires Valid() && scene == 1
      modifies this, room, room.actors
      ensures room == old(room) && player == old(player) && events == old(events)
      ensures PlayStep(old(room.Snapshot()), player, events.items, old(moving), step) ==
              PuzzleRules.Play(room.Snapshot(), moving, won)
      ensures scene == if won then 2 else 1
      ensures Valid() && paused == old(paused) && level == old(level)
    {
      var kept;
      kept, won := PlayRoom(room, player, events.items, moving, step);
      assert loop.Valid() && events.Valid();
      Record(kept, won);
    }

    /** The end of `update` in the playing scene: the remaining list of
        moving actors is kept, and a win moves to the won scene. */
    method Record(kept: seq<Actor>, won: bool)
      requires loop.Valid() && events.Valid() && LevelsOk(levels) && ScenesOk(1, level, |levels|)
      requires room != null && Hosts(room, player, kept)
      modifies this
      ensures Valid() && moving == kept && scene == (if won then 2 else 1)
      ensures room == old(room) && player == old(player) && events == old(events)
      ensures paused == old(paused) && level == old(level)
    {
      moving, scene := kept, if won then 2 else 1;
    }

    /** `update(dt)` with `spd*dt` given as `step`: start the first level
        from the title scene, play a tick, or report that there is nothing
        to do. */
    method Update(step: int) returns (done: bool)
      requires Valid()
      modifies this, room, if room != null then room.actors else {}
      ensures Valid() && paused == old(paused)
      ensures old(scene) == 0 ==>
        scene == 1 && level == 0 && fresh(room) && Built(room, levels[0]) &&
        events.items == [] && moving == [] && done == paused
      ensures old(scene) == 1 ==>
        room == old(room) && player == old(player) && events == old(events) && level == old(level) &&
        PlayStep(old(room.Snapshot()), player, events.items, old(moving), step) ==
          PuzzleRules.Play(room.Snapshot(), moving, scene == 2) &&
        scene in {1, 2} && done == (paused || scene == 2)
      ensures old(scene) >= 2 ==>
        done && scene == old(scene) && level == old(level) && room == old(room) && moving == old(moving) &&
        room.Snapshot() == old(room.Snapshot()) && player == old(player) &&
        events == old(events) && events.items == old(events.items)
    {
      done := paused;
      if scene == 0 {
        level := 0;
        scene := 1;
        Reset();
      } else if scene == 1 {
        var won := Play(step);
        done := done || won;
      } else {
        done := true;
      }
    }

    /** `handle_keyhit`: space restarts the level, or moves on from a won
        level; a direction key is held while playing. */
    method KeyHit(key: int) returns (handled: bool)
      requires Valid()
      modifies this, events, loop
      ensures Valid() && paused == old(paused)
      ensures handled <==> key == Space || KeyEvent(key).Some?
      ensures KeyEvent(key).Some? ==>
        scene == old(scene) && level == old(level) && room == old(room) && player == old(player) &&
        moving == old(moving) && events == old(events) &&
        events.items == if old(scene) == 1 then Pushed(old(events.items), KeyEvent(key).value) else old(events.items)
      ensures key == Space && old(scene) == 1 ==>
        scene == 1 && level == old(level) && fresh(room) && Built(room, levels[level]) &&
        events.items == [] && moving == []
      ensures key == Space && old(scene) == 2 ==>
        level == old(level) + 1 && scene == (if level < |levels| then 1 else 3) &&
        (scene == 1 ==> fresh(room) && Built(room, levels[level]) && events.items == [] && moving == [])
      ensures key == Space && (old(scene) == 1 || old(scene) == 2) && old(loop.loadingProgress) == 0 ==>
        loop.loadingProgress == 0 && loop.framePending
      ensures key == Space && (old(scene) == 1 || old(scene) == 2) && old(loop.loadingProgress) > 0 ==>
        loop.loadingProgress == old(loop.loadingProgress) - 1 && loop.framePending == old(loop.framePending)
      ensures key != Space || old(scene) == 0 || old(scene) == 3 ==>
        loop.loadingProgress == old(loop.loadingProgress) && loop.framePending == old(loop.framePending)
      ensures (key == Space && (old(scene) == 0 || old(scene) == 3)) || !handled ==>
        scene == old(scene) && level == old(level) && room == old(room) && player == old(player) &&
        events == old(events) && events.items == old(events.items) && moving == old(moving)
    {
      handled := true;
      if key == Space {
        if scene == 1 {
          Restart();
        } else if scene == 2 {
          NextLevel();
        }
      } else {
        var e := KeyEvent(key);
        if e.Some? {
          if scene == 1 {
            events.Push(e.value);
          }
        } else {
          handled := false;
        }
      }
    }

    /** Space while playing: the level starts over. */
    method Restart()
      requires Valid() && scene == 1
      modifies this, loop
      ensures Valid() && paused == old(paused) && scene == 1 && level == old(level)
      ensures fresh(room) && Built(room, levels[level]) && events.items == [] && moving == []
      ensures old(loop.loadingProgress) == 0 ==> loop.loadingProgress == 0 && loop.framePending
      ensures old(loop.loadingProgress) > 0 ==>
        loop.loadingProgress == old(loop.loadingProgress) - 1 && loop.framePending == old(loop.framePending)
    {
      // `run` touches only the frame loop and `reset` never does, so
      // running first leaves the same state as the source's order.
      Run();
      Reset();
    }

    /** Space on a won level: the next level starts, or the game is over
        after the last one. */
    method NextLevel()
      requires Valid() && scene == 2
      modifies this, loop
      ensures Valid() && paused == old(paused)
      ensures level == old(level) + 1 && scene == (if level < |levels| then 1 else 3)
      ensures scene == 1 ==> fresh(room) && Built(room, levels[level]) && events.items == [] && moving == []
      ensures scene == 3 ==> room == old(room) && events == old(events) && moving == old(moving)
      ensures old(loop.loadingProgress) == 0 ==> loop.loadingProgress == 0 && loop.framePending
      ensures old(loop.loadingProgress) > 0 ==>
        loop.loadingProgress == old(loop.loadingProgress) - 1 && loop.framePending == old(loop.framePending)
    {
      level := level + 1;
      if level < |levels| {
        scene := 1;
        // from here on the same steps as `Restart`
        Restart();
      } else {
        scene := 3;
        Run();
      }
    }

    /** `handle_keyup`: a released direction key is no longer held. */
    method KeyUp(key: int)
      requires Valid()
      modifies events
      ensures Valid()
      ensures events.items ==
        if old(scene) == 1 && KeyEvent(key).Some? then Without(old(events.items), KeyEvent(key).value)
        else old(events.items)
    {
      var e := KeyEvent(key);
      if e.Some? && scene == 1 {
        events.Eradicate(e.value);
      }
    }

    /** The canvas `blur` listener. */
    method Blur()
      requires Valid()
      modifies this
      ensures Valid() && paused
      ensures scene == old(scene) && level == old(level) && room == old(room) && player == old(player)
      ensures events == old(events) && moving == old(moving)
    {
      paused := true;
    }

    /** The canvas `focus` listener: a paused game resumes and runs. */
    method Focus()
      requires Valid()
      modifies this, loop
      ensures Valid() && !paused
      ensures scene == old(scene) && level == old(level) && room == old(room) && player == old(player)
      ensures events == old(events) && moving == old(moving)
      ensures old(paused) && old(loop.loadingProgress) == 0 ==> loop.loadingProgress == 0 && loop.framePending
      ensures old(paused) && old(loop.loadingProgress) > 0 ==>
        loop.loadingProgress == old(loop.loadingProgress) - 1 && loop.framePending == old(loop.framePending)
      ensures !old(paused) ==>
        loop.loadingProgress == old(loop.loadingProgress) && loop.framePending == old(loop.framePending)
    {
      if paused {
        paused := false;
        Run();
      }
    }

    /** `_update`: the requested frame arrives, `update` runs, and the next
        frame is requested exactly when it is not done. */
    method Frame(step: int) returns (done: bool)
      requires Valid() && loop.framePending
      modifies this, room, if room != null then room.actors else {}, loop
      ensures Valid()
      ensures loop.framePending == !done && loop.loadingProgress == old(loop.loadingProgress)
    {
      done := Update(step);
      loop.Deliver(done);
    }
  }
}
