/**
 * The frame-callback bookkeeping of SaimonApp: animate() registers its own
 * next frame and remembers the handle in frameId, the visibility handler
 * cancels that handle on hide and calls animate() on show, and destroy()
 * cancels it. A "chain" is one self-re-registering callback that is still
 * pending; the number of chains is the number of pending registrations.
 */
module FrameLoop {

  class AnimationFrames {
    /** The last handle animate() stored; 0 stands for the initial null. */
    var frameId: nat
    /** The handle the next requestAnimationFrame returns (always positive). */
    var nextHandle: nat
    /** Registered callbacks that have neither run nor been cancelled. */
    var pending: set<nat>

    ghost predicate Valid()
      reads this
    {
      0 < nextHandle && frameId < nextHandle &&
      forall h :: h in pending ==> 0 < h < nextHandle
    }

    /** The number of live chains. */
    function Chains(): nat
      reads this
    {
      |pending|
    }

    constructor ()
      ensures Valid() && frameId == 0 && pending == {}
    {
      frameId := 0;
      nextHandle := 1;
      pending := {};
    }

    /** requestAnimationFrame: a fresh positive handle, now pending. */
    method RequestFrame() returns (h: nat)
      requires Valid()
      modifies this`nextHandle, this`pending
      ensures Valid()
      ensures h == old(nextHandle) && 0 < h && h !in old(pending)
      ensures pending == old(pending) + {h}
    {
      h := nextHandle;
      nextHandle := nextHandle + 1;
      pending := pending + {h};
    }

    /** cancelAnimationFrame: a no-op for a handle that is not pending. */
    method CancelFrame(h: nat)
      requires Valid()
      modifies this`pending
      ensures Valid() && pending == old(pending) - {h}
    {
      pending := pending - {h};
    }

    /** animate(): registers the next frame and stores its handle. The frame's
        own work (particle steps, rendering) is in module Particles. */
    method Animate()
      requires Valid()
      modifies this
      ensures Valid()
      ensures frameId == old(nextHandle) && frameId !in old(pending)
      ensures pending == old(pending) + {frameId}
      ensures Chains() == old(Chains()) + 1
    {
      frameId := RequestFrame();
    }

    /** The browser runs pending callback h, which calls animate(): the chain
        goes on, so the number of chains stays the same. */
    method RunFrame(h: nat)
      requires Valid() && h in pending
      modifies this
      ensures Valid()
      ensures pending == old(pending) - {h} + {frameId} && frameId == old(nextHandle)
      ensures Chains() == old(Chains())
    {
      pending := pending - {h};
      Animate();
    }

    /** The visibilitychange handler as written: hide cancels frameId when it
        is set, show calls animate() without looking at frameId. */
    method OnVisibilityChange(hidden: bool)
      requires Valid()
      modifies this
      ensures Valid()
      ensures hidden ==> frameId == old(frameId) && pending == old(pending) - {old(frameId)}
      ensures !hidden ==> pending == old(pending) + {frameId} && Chains() == old(Chains()) + 1
    {
      if hidden {
        if frameId != 0 {
          CancelFrame(frameId);
        }
      } else {
        Animate();
      }
    }

    /** destroy(): cancels frameId when it is set; frameId keeps its value,
        so a second destroy() cancels the same handle again, which is a
        no-op. Disposing the scenes and renderers is not modelled. */
    method Destroy()
      requires Valid()
      modifies this
      ensures Valid() && frameId == old(frameId)
      ensures pending == old(pending) - {old(frameId)}
    {
      if frameId != 0 {
        CancelFrame(frameId);
      }
    }

    /** At most one chain, and it is the one frameId names. */
    ghost predicate SingleChain()
      reads this
    {
      pending <= {frameId}
    }

    /** Corrected start: cancel the registration frameId names before
        registering a new one, so a second start replaces the first chain. */
    method Restart()
      requires Valid() && SingleChain()
      modifies this
      ensures Valid() && SingleChain() && pending == {frameId} && Chains() == 1
    {
      if frameId != 0 {
        CancelFrame(frameId);
      }
      assert pending == {};
      Animate();
    }

    /** Corrected visibility handler: show restarts instead of re-arming. */
    method OnVisibilityChangeGuarded(hidden: bool)
      requires Valid() && SingleChain()
      modifies this
      ensures Valid() && SingleChain()
      ensures hidden ==> pending == {}
      ensures !hidden ==> Chains() == 1
    {
      if hidden {
        if frameId != 0 {
          CancelFrame(frameId);
        }
      } else {
        Restart();
      }
    }

    /** Under one chain, running its frame keeps one chain. */
    method RunFrameGuarded(h: nat)
      requires Valid() && SingleChain() && h in pending
      modifies this
      ensures Valid() && SingleChain() && Chains() == 1
    {
      RunFrame(h);
    }
  }

  /** setup() calls animate() once; hiding the tab then cancels that chain, and
      showing it again leaves exactly one. Destroying twice leaves none. */
  method HideShowDestroyTwice() returns (afterShow: nat, afterDestroy: nat)
    ensures afterShow == 1 && afterDestroy == 0
  {
    var app := new AnimationFrames();
    app.Animate();
    app.OnVisibilityChange(true);
    app.OnVisibilityChange(false);
    afterShow := app.Chains();
    app.Destroy();
    app.Destroy();
    afterDestroy := app.Chains();
  }

  /** A page set up while its tab is hidden gets two calls of animate(), one
      from setup() and one from the first show, with no cancel between them:
      two chains run, and hiding the tab afterwards cancels only one of them. */
  method ShowWithoutHideDoublesChains() returns (afterShow: nat, afterHide: nat)
    ensures afterShow == 2 && afterHide == 1
  {
    var app := new AnimationFrames();
    app.Animate();
    app.OnVisibilityChange(false);
    afterShow := app.Chains();
    app.OnVisibilityChange(true);
    afterHide := app.Chains();
  }

  /** The same events with the corrected start: one chain, then none. */
  method ShowWithoutHideGuarded() returns (afterShow: nat, afterHide: nat)
    ensures afterShow == 1 && afterHide == 0
  {
    var app := new AnimationFrames();
    app.Restart();
    app.OnVisibilityChangeGuarded(false);
    afterShow := app.Chains();
    app.OnVisibilityChangeGuarded(true);
    afterHide := app.Chains();
  }
}
