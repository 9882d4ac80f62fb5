/** The window record of the C layer (c/src/window/common.c): the
    `closed` and `dropped` flags, the user data pointer and the
    application's `windows_alive` counter, which `bw_Window_new` raises and
    `bw_Window_free` lowers.

    What the platform does on show, hide and close (`bw_WindowImpl_*`) is
    not part of this model. `released` records that `bw_Window_free` has
    given the record back; every other operation needs a live record. */
module CWindow {
  import opened Handles
  import opened Dispatch
  import opened CApplication

  class Window {
    const app: Application
    const parent: Window?
    var closed: bool
    var dropped: bool
    var userData: Ptr
    var browser: Ptr
    /** The user data pointers `bw_Window_freeUserData` has released. */
    ghost var releasedUserData: seq<Ptr>
    ghost var released: bool

    /** Only non-NULL user data is ever released. */
    ghost predicate Valid()
      reads this
    {
      forall i :: 0 <= i < |releasedUserData| ==> releasedUserData[i] != NULL
    }

    /** `bw_Window_new`: the window starts hidden and not dropped, with no
        user data and no browser, and it is counted as alive. */
    constructor (app: Application, parent: Window?)
      requires app.Valid()
      modifies app
      ensures Valid() && !released
      ensures this.app == app && this.parent == parent
      ensures closed && !dropped && userData == NULL && browser == NULL && releasedUserData == []
      ensures app.windowsAlive == ToUint32(old(app.windowsAlive) as int + 1)
      ensures app.windows == old(app.windows) + {this} && this !in old(app.windows)
      ensures old(app.CountsWindows()) ==> app.CountsWindows()
      ensures app.Valid() && app.queue == old(app.queue) && app.calls == old(app.calls)
      ensures app.isRunning == old(app.isRunning) && app.isDone == old(app.isDone)
    {
      this.app := app;
      this.parent := parent;
      closed := true;
      dropped := false;
      userData := NULL;
      browser := NULL;
      releasedUserData := [];
      released := false;
      new;
      ghost var n := |app.windows|;
      ToUint32Shift(n, 1);
      app.windowsAlive := ToUint32(app.windowsAlive as int + 1);
      app.windows := app.windows + {this};
      assert |app.windows| == n + 1;
      assert old(app.CountsWindows()) ==> app.windowsAlive == ToUint32(n + 1);
    }

    /** `bw_Window_getApp`. */
    function GetApp(): (a: Application)
      ensures a == app
    {
      app
    }

    /** `bw_Window_show`. */
    method Show()
      requires !released
      modifies this
      ensures !closed
      ensures dropped == old(dropped) && userData == old(userData) && releasedUserData == old(releasedUserData)
      ensures released == old(released) && browser == old(browser)
    {
      closed := false;
    }

    /** `bw_Window_hide`. */
    method Hide()
      requires !released
      modifies this
      ensures closed
      ensures dropped == old(dropped) && userData == old(userData) && releasedUserData == old(releasedUserData)
      ensures released == old(released) && browser == old(browser)
    {
      closed := true;
    }

    /** `bw_Window_isVisible`: a window is visible when it is not closed. */
    method IsVisible() returns (visible: bool)
      requires !released
      ensures visible <==> !closed
    {
      return !closed;
    }

    /** `bw_Window_freeUserData` (src/core/browser_window/c.rs): a non-NULL
        user data pointer is released and cleared, a NULL one left alone. */
    method FreeUserData()
      requires Valid() && !released
      modifies this
      ensures Valid() && userData == NULL
      ensures releasedUserData == old(releasedUserData) + (if old(userData) != NULL then [old(userData)] else [])
      ensures closed == old(closed) && dropped == old(dropped) && released == old(released) && browser == old(browser)
    {
      if userData != NULL {
        releasedUserData := releasedUserData + [userData];
        userData := NULL;
      }
    }

    /** `bw_Window_close`: the user data is released when there is any,
        then the platform closes the window. */
    method Close()
      requires Valid() && !released
      modifies this
      ensures Valid() && userData == NULL
      ensures releasedUserData == old(releasedUserData) + (if old(userData) != NULL then [old(userData)] else [])
      ensures closed == old(closed) && dropped == old(dropped) && released == old(released) && browser == old(browser)
    {
      if userData != NULL {
        FreeUserData();
      }
    }

    /** `bw_Window_free`: the record is released and `windows_alive` goes
        down by one, as an `unsigned int`. When it reaches 0 after
        `markAsDone`, the application is asked to exit with 0; with the
        count kept, that is exactly when the last window goes. */
    method Free()
      requires !released && app.Valid() && this in app.windows
      modifies this, app
      ensures released
      ensures app.windowsAlive == ToUint32(old(app.windowsAlive) as int - 1)
      ensures app.windows == old(app.windows) - {this}
      ensures old(app.CountsWindows()) ==> app.CountsWindows()
      ensures app.queue == old(app.queue) + (if app.windowsAlive == 0 && app.isDone then [Quit(0)] else [])
      ensures old(app.CountsWindows()) && |old(app.windows)| <= TwoTo32 ==>
        (app.windowsAlive == 0 <==> app.windows == {})
      ensures app.Valid() && app.calls == old(app.calls)
      ensures app.isRunning == old(app.isRunning) && app.isDone == old(app.isDone)
    {
      var a := app;
      released := true;
      ghost var n := |a.windows|;
      ToUint32Shift(n, -1);
      a.windowsAlive := ToUint32(a.windowsAlive as int - 1);
      a.windows := a.windows - {this};
      assert |a.windows| == n - 1;
      assert old(app.CountsWindows()) ==> a.windowsAlive == ToUint32(n - 1);
      if a.windowsAlive == 0 {
        if a.isDone {
          a.Exit(0);
        }
      }
    }
  }
}
