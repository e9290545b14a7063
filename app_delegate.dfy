/**
 * The host application's session gate: at most one capture session at a
 * time, opened by the hotkey only with screen-recording permission and a
 * non-empty capture, and closed when the session reports its dismissal.
 */
module App {
  import opened Wrappers
  import opened Surface
  import opened Overlay

  /** The three buttons of the floating toolbar. */
  datatype ToolbarButton = Save | Copy | Cancel

  class AppDelegate {
    var overlayController: OverlayWindowController?
    /** How often screen-recording permission has been requested. */
    var permissionRequests: nat

    /** A stored session is consistent and has not been dismissed yet. */
    ghost predicate Valid()
      reads this, overlayController, if overlayController == null then [] else overlayController.selectionViews
    {
      overlayController != null ==> overlayController.Valid() && !overlayController.dismissNotified
    }

    constructor ()
      ensures Valid() && overlayController == null && permissionRequests == 0
    {
      overlayController := null;
      permissionRequests := 0;
    }

    /**
     * `triggerCapture`, fired by the hotkey. The permission check and the
     * capture of every display are the two inputs. With a session open it
     * does nothing; without permission it requests it and opens nothing; an
     * empty capture opens nothing; otherwise exactly one new session is
     * stored and shown with one surface per captured display.
     */
    method TriggerCapture(permissionGranted: bool, captured: seq<ScreenImage>)
      requires Valid()
      modifies this
      ensures Valid()
      ensures old(overlayController) != null ==>
                overlayController == old(overlayController) && permissionRequests == old(permissionRequests)
      ensures old(overlayController) == null && !permissionGranted ==>
                overlayController == null && permissionRequests == old(permissionRequests) + 1
      ensures old(overlayController) == null && permissionGranted && |captured| == 0 ==>
                overlayController == null && permissionRequests == old(permissionRequests)
      ensures old(overlayController) == null && permissionGranted && |captured| > 0 ==>
                && overlayController != null && fresh(overlayController)
                && overlayController.screenImages == captured
                && |overlayController.selectionViews| == |captured|
                && |overlayController.windows| == |captured| && overlayController.activeIndex == None
                && (forall k :: 0 <= k < |captured| ==>
                      IdleSurfaceFor(overlayController.selectionViews[k], captured[k].screen))
                && overlayController.toolbar == None && overlayController.currentSelection == None
                && permissionRequests == old(permissionRequests)
    {
      if overlayController != null {
        return;
      }
      if !permissionGranted {
        permissionRequests := permissionRequests + 1;
        return;
      }
      if |captured| == 0 {
        return;
      }
      var controller := new OverlayWindowController(captured);
      overlayController := controller;
      controller.Show();
    }

    /** The `onDismiss` closure: forget the session so that the next hotkey can open a new one. */
    method OnDismiss()
      modifies this`overlayController
      ensures Valid() && overlayController == null
    {
      overlayController := null;
    }

    /**
     * Input to surface `i` of the open session. When the session dismisses
     * itself (confirm or Escape) the host forgets it; otherwise it stays.
     */
    method Deliver(i: nat, input: SurfaceInput, env: Environment) returns (ev: Option<SurfaceEvent>)
      requires Valid() && overlayController != null && i < |overlayController.selectionViews|
      modifies this, overlayController, overlayController.selectionViews[i]
      ensures Valid()
      ensures ev.Some? && (ev.value.DidConfirm? || ev.value.DidCancel?) ==> overlayController == null
      ensures ev.None? ==> overlayController == old(overlayController)
      ensures ev.Some? && (ev.value.DidSelect? || ev.value.DidStartNewSelection?) ==> overlayController == old(overlayController)
      ensures input.KeyPress? && input.keyCode == EscapeKeyCode ==> overlayController == null
      ensures permissionRequests == old(permissionRequests)
    {
      var controller := overlayController;
      ev := controller.Dispatch(i, input, env);
      if controller.dismissNotified {
        OnDismiss();
      }
    }

    /** A toolbar button of the open session: every one of them ends the session. */
    method Press(button: ToolbarButton, env: Environment)
      requires Valid() && overlayController != null
      modifies this, overlayController
      ensures Valid() && overlayController == null
      ensures permissionRequests == old(permissionRequests)
      ensures old(overlayController).dismissNotified && old(overlayController).selectionViews == []
      ensures button != Save ==> old(overlayController).savedFiles == old(overlayController.savedFiles)
      ensures button == Cancel ==> old(overlayController).clipboard == old(overlayController.clipboard)
      ensures var written := if old(overlayController.currentSelection).None? then []
                             else Written(CropOn(old(overlayController.screenImages),
                                                 TargetIndex(old(overlayController.activeIndex), old(overlayController.screenImages),
                                                             |old(overlayController.selectionViews)|, env),
                                                 old(overlayController.currentSelection).value));
              && (button == Copy ==> old(overlayController).clipboard == old(overlayController.clipboard) + written)
              && (button == Save ==>
                    && old(overlayController).clipboard == old(overlayController.clipboard) + written
                    && old(overlayController).savedFiles == old(overlayController.savedFiles) + written)
      ensures button == Save ==>
                |old(overlayController).savedFiles| >= |old(overlayController.savedFiles)|
                && old(overlayController).savedFiles[..|old(overlayController.savedFiles)|] == old(overlayController.savedFiles)
                && old(overlayController).clipboard
                   == old(overlayController.clipboard) + old(overlayController).savedFiles[|old(overlayController.savedFiles)|..]
    {
      var controller := overlayController;
      match button {
        case Save => controller.SaveSelection(env);
        case Copy => controller.CopySelection(env);
        case Cancel => controller.Dismiss();
      }
      if controller.dismissNotified {
        OnDismiss();
      }
    }
  }
}
