/** `AppRouter`: a navigation stack of routes plus one optional sheet and
    one optional full-screen cover, generic in the three route types. */
module AppRouter {
  import opened Wrappers

  datatype Router<S, H, F> = Router(path: seq<S>, sheet: Option<H>, fullScreen: Option<F>)

  /** A new router: empty stack, nothing presented. */
  function NewRouter<S, H, F>(): (r: Router<S, H, F>)
    ensures |r.path| == 0 && r.sheet.None? && r.fullScreen.None?
  {
    Router([], None, None)
  }

  /** `push`: the route goes on top of the stack; the modal slots stay. */
  function Push<S, H, F>(r: Router<S, H, F>, route: S): (r': Router<S, H, F>)
    ensures |r'.path| == |r.path| + 1 && r'.path[..|r.path|] == r.path && r'.path[|r.path|] == route
    ensures r'.sheet == r.sheet && r'.fullScreen == r.fullScreen
  {
    r.(path := r.path + [route])
  }

  /** `pop`: drops the top route; on an empty stack nothing changes. */
  function Pop<S, H, F>(r: Router<S, H, F>): (r': Router<S, H, F>)
    ensures |r.path| == 0 ==> r' == r
    ensures |r.path| > 0 ==> r'.path == r.path[..|r.path| - 1]
    ensures r'.sheet == r.sheet && r'.fullScreen == r.fullScreen
  {
    if |r.path| == 0 then r else r.(path := r.path[..|r.path| - 1])
  }

  /** `popToRoot`: empties the stack; the modal slots stay. */
  function PopToRoot<S, H, F>(r: Router<S, H, F>): (r': Router<S, H, F>)
    ensures |r'.path| == 0 && r'.sheet == r.sheet && r'.fullScreen == r.fullScreen
  {
    r.(path := [])
  }

  /** `setPath`: replaces the stack wholesale; the modal slots stay. */
  function SetPath<S, H, F>(r: Router<S, H, F>, newPath: seq<S>): (r': Router<S, H, F>)
    ensures r'.path == newPath && r'.sheet == r.sheet && r'.fullScreen == r.fullScreen
  {
    r.(path := newPath)
  }

  /** `presentSheet`: shows the sheet, replacing any sheet already shown. */
  function PresentSheet<S, H, F>(r: Router<S, H, F>, route: H): (r': Router<S, H, F>)
    ensures r'.sheet == Some(route) && r'.path == r.path && r'.fullScreen == r.fullScreen
  {
    r.(sheet := Some(route))
  }

  function DismissSheet<S, H, F>(r: Router<S, H, F>): (r': Router<S, H, F>)
    ensures r'.sheet.None? && r'.path == r.path && r'.fullScreen == r.fullScreen
  {
    r.(sheet := None)
  }

  /** `presentFullScreen`: shows the cover, replacing any cover shown. */
  function PresentFullScreen<S, H, F>(r: Router<S, H, F>, route: F): (r': Router<S, H, F>)
    ensures r'.fullScreen == Some(route) && r'.path == r.path && r'.sheet == r.sheet
  {
    r.(fullScreen := Some(route))
  }

  function DismissFullScreen<S, H, F>(r: Router<S, H, F>): (r': Router<S, H, F>)
    ensures r'.fullScreen.None? && r'.path == r.path && r'.sheet == r.sheet
  {
    r.(fullScreen := None)
  }

  /** `resetAll`: back to a new router's state. */
  function ResetAll<S, H, F>(r: Router<S, H, F>): (r': Router<S, H, F>)
    ensures r' == NewRouter()
  {
    Router([], None, None)
  }

  /** Pushing and then popping restores the router exactly. */
  lemma PushThenPop<S, H, F>(r: Router<S, H, F>, route: S)
    ensures Pop(Push(r, route)) == r
  {
    assert (r.path + [route])[..|r.path|] == r.path;
  }

  /** Resetting is the same as emptying the stack and dismissing both
      modals, in any of these orders. */
  lemma ResetIsEveryClear<S, H, F>(r: Router<S, H, F>)
    ensures ResetAll(r) == DismissFullScreen(DismissSheet(PopToRoot(r)))
    ensures ResetAll(r) == PopToRoot(DismissSheet(DismissFullScreen(r)))
  {
  }

  /** Presenting and then dismissing a modal is just dismissing it: each
      slot holds at most one route and keeps no history. */
  lemma ModalsKeepNoHistory<S, H, F>(r: Router<S, H, F>, sheet: H, cover: F)
    ensures DismissSheet(PresentSheet(r, sheet)) == DismissSheet(r)
    ensures DismissFullScreen(PresentFullScreen(r, cover)) == DismissFullScreen(r)
  {
  }
}
