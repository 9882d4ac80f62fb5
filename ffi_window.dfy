/** The window record of the older FFI layer (ffi/src/window/common.c):
    the `closed` and `dropped` flags decide when a window is destroyed. A
    window is destroyed once it is both closed and dropped, by whichever of
    `close` and `drop` comes second; destroying it first destroys its
    parent when the parent is closed and dropped as well. Every destroyed
    window lowers the application's `windows_alive`, and the application
    is asked to exit when it reaches 0.

    What the platform does (`bw_WindowImpl_*`) is not part of this model.
    The application's ghost histories `freed`, `cleanedUp` and
    `readAfterFree` record the records given to `free`, the records whose
    cleanup handler ran and the records read after their `free`; a sound
    program frees each record once and reads none after its `free`. The
    parent chain is finite: `depth` ranks every window above its parent. */
module FfiWindow {
  import opened Handles
  import opened Dispatch
  import opened FfiApplication

  /** No element occurs twice. */
  ghost predicate NoRepeats(s: seq<object>)
  {
    forall i, j :: 0 <= i < j < |s| ==> s[i] != s[j]
  }

  /** Appending elements that are new and pairwise distinct keeps a
      history free of repeats. */
  lemma {:induction false} NoRepeatsAppend(s: seq<object>, t: seq<object>)
    requires NoRepeats(s) && NoRepeats(t)
    requires forall i :: 0 <= i < |t| ==> t[i] !in s
    ensures NoRepeats(s + t)
  {
    forall i, j | 0 <= i < j < |s + t|
      ensures (s + t)[i] != (s + t)[j]
    {
      if j >= |s| {
        assert (s + t)[j] == t[j - |s|];
        if i >= |s| {
          assert (s + t)[i] == t[i - |s|];
        } else {
          assert (s + t)[i] == s[i];
        }
      }
    }
  }

  class Window {
    const app: Application
    const parent: Window?
    ghost const depth: nat
    var closed: bool
    var dropped: bool
    var userData: Ptr
    /** `callbacks.do_cleanup`; NULL when none is installed. */
    var doCleanup: FuncPtr

    /** The parent chain goes down in depth and stays in one application. */
    ghost predicate Ranked()
      decreases depth
    {
      parent != null ==> parent.depth < depth && parent.app == app && parent.Ranked()
    }

    /** The window and its ancestors. */
    ghost function Chain(): (c: set<Window>)
      requires Ranked()
      ensures this in c
      decreases depth, 1
    {
      {this} + Ancestors()
    }

    /** The ancestors of the window. */
    ghost function Ancestors(): (c: set<Window>)
      requires Ranked()
      ensures parent != null ==> parent in c && parent.Ancestors() <= c
      ensures forall w :: w in c ==> w.depth < depth
      decreases depth, 0
    {
      if parent == null then {} else parent.Chain()
    }

    /** Whether `destroy` goes to the parent first. */
    ghost predicate ParentGoes()
      requires Ranked()
      reads Ancestors()
    {
      parent != null && parent.dropped && parent.closed
    }

    /** The records one `destroy` of this window frees, in order: the
        parent's cascade first when the parent is closed and dropped, then
        the window itself. The window's own flags play no part. */
    ghost function Cascade(): (c: seq<Window>)
      requires Ranked()
      reads Ancestors()
      ensures |c| > 0 && c[|c| - 1] == this
      decreases depth
    {
      (if ParentGoes() then parent.Cascade() else []) + [this]
    }

    /** The records of the cascade whose cleanup handler is set, in order. */
    ghost function Cleanups(): (c: seq<object>)
      requires Ranked()
      reads Ancestors(), this
      decreases depth
    {
      (if ParentGoes() then parent.Cleanups() else []) + (if doCleanup != NULL then [this] else [])
    }

    /** The cascade as a set. */
    ghost function Doomed(): (d: set<Window>)
      requires Ranked()
      reads Ancestors()
    {
      set w | w in Cascade()
    }

    /** The windows `destroy` frees are alive, counted by the application
        and not yet freed. */
    ghost predicate CanDestroy()
      requires Ranked()
      reads Ancestors(), app
    {
      && app.Valid() && app.CountsWindows() && |app.windows| < TwoTo32
      && forall i :: 0 <= i < |Cascade()| ==> Cascade()[i] in app.windows && Cascade()[i] !in app.freed
    }

    /** The cascade climbs the parent chain: depths go up along it and end
        at the window's own. */
    lemma {:induction false} CascadeBelow()
      requires Ranked()
      ensures forall i :: 0 <= i < |Cascade()| ==> Cascade()[i].depth <= depth
      ensures forall i, j :: 0 <= i < j < |Cascade()| ==> Cascade()[i].depth < Cascade()[j].depth
      decreases depth
    {
      if ParentGoes() {
        parent.CascadeBelow();
        var pc := parent.Cascade();
        assert Cascade() == pc + [this];
      }
    }

    /** When the parent goes first, the cascade is the parent's followed by
        the window, which is not in the parent's. */
    lemma CascadeSplit()
      requires Ranked() && ParentGoes()
      ensures Cascade() == parent.Cascade() + [this] && this !in parent.Doomed()
      ensures forall i :: 0 <= i < |parent.Cascade()| ==> parent.Cascade()[i] == Cascade()[i]
      ensures Doomed() == parent.Doomed() + {this}
      ensures Cleanups() == parent.Cleanups() + (if doCleanup != NULL then [this] else [])
    {
      parent.CascadeBelow();
    }

    /** When the parent does not go first, the cascade is the window alone. */
    lemma CascadeAlone()
      requires Ranked() && !ParentGoes()
      ensures Cascade() == [this] && Doomed() == {this}
      ensures Cleanups() == (if doCleanup != NULL then [this] else [])
    {
    }

    /** The window is not among its ancestors. */
    lemma NotAncestor()
      requires Ranked()
      ensures this !in Ancestors()
    {
    }

    /** The cascade holds no record twice. */
    lemma CascadeNoRepeats()
      requires Ranked()
      ensures NoRepeats(Cascade())
    {
      CascadeBelow();
      var c := Cascade();
      forall i, j | 0 <= i < j < |c|
        ensures c[i] != c[j]
      {
        assert c[i].depth < c[j].depth;
      }
    }

    /** `bw_Window_new` with the counter raised in `bw_WindowImpl_new`
        (ffi/src/window/win32.c): the window starts open and not dropped,
        with the user data given and no callbacks. */
    constructor (app: Application, parent: Window?, userData: Ptr)
      requires parent != null ==> parent.Ranked() && parent.app == app
      modifies app
      ensures Ranked() && this.app == app && this.parent == parent
      ensures !closed && !dropped && this.userData == userData && doCleanup == NULL
      ensures app.windowsAlive == ToUint32(old(app.windowsAlive) as int + 1)
      ensures app.windows == old(app.windows) + {this} && this !in old(app.windows)
      ensures old(app.CountsWindows()) ==> app.CountsWindows()
      ensures app.queue == old(app.queue) && app.calls == old(app.calls) && app.isRunning == old(app.isRunning)
      ensures app.freed == old(app.freed) && app.cleanedUp == old(app.cleanedUp) && app.readAfterFree == old(app.readAfterFree)
      ensures old(app.Valid()) ==> app.Valid()
    {
      this.app := app;
      this.parent := parent;
      depth := if parent == null then 0 else parent.depth + 1;
      closed := false;
      dropped := false;
      this.userData := userData;
      doCleanup := NULL;
      new;
      ghost var n := |app.windows|;
      ToUint32Shift(n, 1);
      app.windowsAlive := ToUint32(app.windowsAlive as int + 1);
      app.windows := app.windows + {this};
      assert |app.windows| == n + 1;
    }

    /** `bw_Window_getApp`. */
    function GetApp(): (a: Application)
      ensures a == app
    {
      app
    }

    /** `bw_Window_isClosed`. */
    method IsClosed() returns (c: bool)
      ensures c == closed
    {
      return closed;
    }

    /** `bw_Window_open`. */
    method Open()
      modifies this
      ensures !closed && dropped == old(dropped) && doCleanup == old(doCleanup) && userData == old(userData)
    {
      closed := false;
    }

    /** Counts the window out of the application, after it is freed; the
        application exits with 0 when no window is left. */
    static method CountOut(app: Application, w: Window)
      requires app.Valid() && app.CountsWindows() && w in app.windows && |app.windows| < TwoTo32
      modifies app
      ensures app.Valid() && app.CountsWindows()
      ensures app.windows == old(app.windows) - {w}
      ensures app.queue == old(app.queue) + (if app.windows == {} then [Quit(0)] else [])
      ensures app.calls == old(app.calls) && app.isRunning == old(app.isRunning)
      ensures app.freed == old(app.freed) && app.cleanedUp == old(app.cleanedUp) && app.readAfterFree == old(app.readAfterFree)
    {
      ghost var n := |app.windows|;
      ToUint32Shift(n, -1);
      app.windowsAlive := ToUint32(app.windowsAlive as int - 1);
      app.windows := app.windows - {w};
      assert |app.windows| == n - 1;
      if app.windowsAlive == 0 {
        app.Exit(0);
      }
    }

    /** The part of `bw_Window_destroy` after the parent's cascade, with
        the application read before the record is freed: the cleanup
        handler when set, the free, and the count going down. */
    method Finish()
      requires app.Valid() && app.CountsWindows() && this in app.windows && |app.windows| < TwoTo32
      modifies app
      ensures app.Valid() && app.CountsWindows()
      ensures app.windows == old(app.windows) - {this}
      ensures app.queue == old(app.queue) + (if app.windows == {} then [Quit(0)] else [])
      ensures app.calls == old(app.calls) && app.isRunning == old(app.isRunning)
      ensures app.freed == old(app.freed) + [this]
      ensures app.cleanedUp == old(app.cleanedUp) + (if doCleanup != NULL then [this] else [])
      ensures app.readAfterFree == old(app.readAfterFree)
    {
      if doCleanup != NULL {
        app.cleanedUp := app.cleanedUp + [this];
      }
      var a := app;
      a.freed := a.freed + [this];
      CountOut(a, this);
    }

    /** The same part as the source writes it: `window->app` is read after
        `free( window )`. */
    method FinishAsWritten()
      requires app.Valid() && app.CountsWindows() && this in app.windows && |app.windows| < TwoTo32
      modifies app
      ensures app.Valid() && app.CountsWindows()
      ensures app.windows == old(app.windows) - {this}
      ensures app.freed == old(app.freed) + [this]
      ensures app.readAfterFree == old(app.readAfterFree) + [this]
    {
      if doCleanup != NULL {
        app.cleanedUp := app.cleanedUp + [this];
      }
      app.freed := app.freed + [this];
      app.readAfterFree := app.readAfterFree + [this];
      var a := app;
      CountOut(a, this);
    }

    /** `bw_Window_destroy`, with the application read before the record
        is freed. The records of the cascade are freed in order, each once,
        their cleanup handlers run when set, and they are counted out; the
        application is asked to exit when no window is left. */
    method Destroy()
      requires Ranked() && CanDestroy()
      modifies app
      ensures app.Valid() && app.CountsWindows()
      ensures app.windows == old(app.windows) - old(Doomed())
      ensures app.queue == old(app.queue) + (if app.windows == {} then [Quit(0)] else [])
      ensures app.calls == old(app.calls) && app.isRunning == old(app.isRunning)
      ensures app.freed == old(app.freed) + old(Cascade())
      ensures app.cleanedUp == old(app.cleanedUp) + old(Cleanups())
      ensures app.readAfterFree == old(app.readAfterFree)
      decreases depth
    {
      ghost var c, cl := Cascade(), Cleanups();
      ghost var freed0, cleanedUp0 := app.freed, app.cleanedUp;
      if parent != null && parent.dropped && parent.closed {
        CascadeSplit();
        ghost var pc, pcl := parent.Cascade(), parent.Cleanups();
        assert c[|c| - 1] == this;
        parent.Destroy();
        assert this in app.windows;
        Finish();
        AppendAssoc(freed0, pc, [this]);
        AppendAssoc(cleanedUp0, pcl, if doCleanup != NULL then [this] else []);
      } else {
        CascadeAlone();
        Finish();
      }
    }

    /** `bw_Window_destroy` as the source writes it: every record of the
        cascade is read after its `free`. */
    method DestroyAsWritten()
      requires Ranked() && CanDestroy()
      modifies app
      ensures app.Valid() && app.CountsWindows()
      ensures app.windows == old(app.windows) - old(Doomed())
      ensures app.freed == old(app.freed) + old(Cascade())
      ensures app.readAfterFree == old(app.readAfterFree) + old(Cascade())
      decreases depth
    {
      ghost var c := Cascade();
      ghost var freed0, read0 := app.freed, app.readAfterFree;
      if parent != null && parent.dropped && parent.closed {
        CascadeSplit();
        ghost var pc := parent.Cascade();
        assert c[|c| - 1] == this;
        parent.DestroyAsWritten();
        assert this in app.windows;
        FinishAsWritten();
        AppendAssoc(freed0, pc, [this]);
        AppendAssoc(read0, pc, [this]);
      } else {
        CascadeAlone();
        FinishAsWritten();
      }
    }

    /** The test at the head of `bw_Window_destroy`: the parent's flags
        are read through the stored pointer, whether or not the parent's
        record has been freed. */
    method ParentCheck() returns (goes: bool)
      requires Ranked()
      modifies app
      ensures goes == ParentGoes()
      ensures app.readAfterFree == old(app.readAfterFree) + (if parent != null && parent in old(app.freed) then [parent] else [])
      ensures app.freed == old(app.freed) && app.windows == old(app.windows) && app.queue == old(app.queue)
    {
      goes := parent != null && parent.dropped && parent.closed;
      if parent != null && parent in app.freed {
        app.readAfterFree := app.readAfterFree + [parent];
      }
    }

    /** `bw_Window_close`: the window is marked closed; a dropped window is
        destroyed, any other only hidden. */
    method Close()
      requires Ranked() && (dropped ==> CanDestroy())
      modifies this, app
      ensures closed && dropped == old(dropped) && doCleanup == old(doCleanup) && userData == old(userData)
      ensures old(dropped) ==> app.freed == old(app.freed) + old(Cascade()) && app.windows == old(app.windows) - old(Doomed())
      ensures !old(dropped) ==> app.freed == old(app.freed) && app.windows == old(app.windows) && app.queue == old(app.queue)
      ensures !old(dropped) ==> unchanged(app)
      ensures app.calls == old(app.calls) && app.readAfterFree == old(app.readAfterFree)
    {
      NotAncestor();
      closed := true;
      if dropped {
        Destroy();
      }
    }

    /** `bw_Window_drop` with one `free`: the window is marked dropped and
        a closed window is destroyed. */
    method Drop()
      requires Ranked() && (closed ==> CanDestroy())
      modifies this, app
      ensures dropped && closed == old(closed) && doCleanup == old(doCleanup) && userData == old(userData)
      ensures old(closed) ==> app.freed == old(app.freed) + old(Cascade()) && app.windows == old(app.windows) - old(Doomed())
      ensures !old(closed) ==> app.freed == old(app.freed) && app.windows == old(app.windows) && app.queue == old(app.queue)
      ensures !old(closed) ==> unchanged(app)
      ensures app.calls == old(app.calls) && app.readAfterFree == old(app.readAfterFree)
    {
      NotAncestor();
      dropped := true;
      if closed {
        Destroy();
      }
    }

    /** `bw_Window_drop` as the source writes it: `destroy` has freed the
        record already, and it is freed once more. */
    method DropAsWritten()
      requires Ranked() && (closed ==> CanDestroy())
      modifies this, app
      ensures dropped
      ensures old(closed) ==> app.freed == old(app.freed) + old(Cascade()) + [this]
      ensures !old(closed) ==> app.freed == old(app.freed)
    {
      NotAncestor();
      dropped := true;
      if closed {
        Destroy();
        app.freed := app.freed + [this];
      }
    }
  }

  /** A parent closed and dropped before its child is freed on its own,
      since `destroy` looks only upwards. The child keeps the pointer: the
      next `destroy` of the child reads the freed parent's flags, finds it
      closed and dropped, and would destroy it again, so that the child can
      no longer be destroyed soundly. */
  method ParentFreedFirstAsWritten(app: Application, userData: Ptr) returns (p: Window, c: Window, parentGoes: bool)
    requires app.Valid() && app.CountsWindows() && |app.windows| + 2 < TwoTo32
    modifies app
    ensures p in app.freed && p !in app.windows && c in app.windows && c.parent == p
    ensures parentGoes && p in app.readAfterFree
    ensures c.Ranked() && !c.CanDestroy()
  {
    p, c := NewParentAndChild(app, userData);
    p.Close();
    assert p.Cascade() == [p];
    p.Drop();
    assert p in app.freed;
    parentGoes := c.ParentCheck();
    assert c.Cascade()[0] == p;
  }

  /** A new top-level window and a new child of it, both open and held. */
  method NewParentAndChild(app: Application, userData: Ptr) returns (p: Window, c: Window)
    requires app.Valid() && app.CountsWindows() && |app.windows| + 2 < TwoTo32
    modifies app
    ensures fresh(p) && fresh(c) && p.app == app && c.app == app
    ensures p.parent == null && c.parent == p && p.Ranked() && c.Ranked()
    ensures !p.closed && !p.dropped && !c.closed && !c.dropped
    ensures app.windows == old(app.windows) + {p, c} && app.freed == old(app.freed)
    ensures app.readAfterFree == old(app.readAfterFree)
    ensures app.Valid() && app.CountsWindows()
  {
    p := new Window(app, null, userData);
    c := new Window(app, p, userData);
  }

  /** Destroying keeps the `free` history free of repeats: a record is
      freed at most once. */
  lemma DestroyFreesOnce(freed: seq<object>, w: Window)
    requires w.Ranked() && NoRepeats(freed)
    requires forall i :: 0 <= i < |w.Cascade()| ==> w.Cascade()[i] !in freed
    ensures NoRepeats(freed + w.Cascade())
  {
    w.CascadeNoRepeats();
    NoRepeatsAppend(freed, w.Cascade());
  }

  /** The `drop` as written frees the window twice: the record ends the
      cascade `destroy` has freed, and is appended once more. */
  lemma DropAsWrittenFreesTwice(freed: seq<object>, w: Window)
    requires w.Ranked()
    ensures !NoRepeats(freed + w.Cascade() + [w])
  {
    var c := w.Cascade();
    var s := freed + c + [w];
    assert s[|freed| + |c| - 1] == c[|c| - 1] == w;
    assert s[|s| - 1] == w;
  }
}
