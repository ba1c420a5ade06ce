/** The scheduling half of game-core.js's `Game`: the loading countdown that
    gates the first frame (`run`) and the bookkeeping of the pending animation
    frame after each update (`_update`). Time stamps and the `dt` cap are not
    modelled; the update itself is supplied by the caller as its result. */
module FrameLoop {

  class Loop {
    /** `loading_progress`: outstanding `run` calls still to be absorbed. */
    var loadingProgress: nat
    /** `_anim_ref !== null`: a frame has been requested and not yet delivered. */
    var framePending: bool
    /** How many frames the browser currently holds for this game. */
    ghost var requested: nat

    /** The browser never holds a frame the game does not know about, and
        never more than one. */
    ghost predicate Valid()
      reads this
    {
      requested == if framePending then 1 else 0
    }

    /** The counters as the `Game` constructor sets them. */
    constructor ()
      ensures Valid()
      ensures loadingProgress == 0 && !framePending && requested == 0
    {
      loadingProgress := 0;
      framePending := false;
      requested := 0;
    }

    /** `loading_progress += 1`, done before a resource is requested. */
    method BeginLoad()
      requires Valid()
      modifies this
      ensures Valid()
      ensures loadingProgress == old(loadingProgress) + 1
      ensures framePending == old(framePending) && requested == old(requested)
    {
      loadingProgress := loadingProgress + 1;
    }

    /** `Game.prototype.run`: absorb one outstanding load, or else request a
        frame unless one is already pending. */
    method Run()
      requires Valid()
      modifies this
      ensures Valid() && requested <= 1
      ensures old(loadingProgress) > 0 ==>
        loadingProgress == old(loadingProgress) - 1 &&
        framePending == old(framePending) && requested == old(requested)
      ensures old(loadingProgress) == 0 ==>
        loadingProgress == 0 && framePending &&
        (old(framePending) ==> requested == old(requested))
    {
      if loadingProgress > 0 {
        loadingProgress := loadingProgress - 1;
      } else if !framePending {
        framePending := true;
        requested := requested + 1;
      }
    }

    /** `Game.prototype._update` after the browser delivered the pending
        frame and `update` answered `done`: a new frame is requested exactly
        when the update is not done. */
    method Deliver(done: bool)
      requires Valid() && requested > 0
      modifies this
      ensures Valid() && requested <= 1
      ensures framePending == !done
      ensures loadingProgress == old(loadingProgress)
    {
      requested := requested - 1;
      if done {
        framePending := false;
      } else {
        framePending := true;
        requested := requested + 1;
      }
    }
  }
}
