/** The root coordinator: which flow is on screen (auth or main), its two
    child coordinators, and the start/finish calls it makes on them. */
module AppCoordinator {
  import opened Wrappers
  import opened CoordinatorChildren

  datatype AppRoute = Auth | Main

  /** The two child flows the root coordinator owns. */
  datatype ChildFlow = AuthFlow | MainTabFlow

  /** A lifecycle call made on a child coordinator. */
  datatype ChildCall = Start(flow: ChildFlow) | Finish(flow: ChildFlow)

  datatype Coordinator = Coordinator(route: AppRoute, children: seq<Box<ChildFlow>>)

  /** The result of an operation: the coordinator after it and the calls
      it made on the children, in order. */
  datatype Effect = Effect(after: Coordinator, calls: seq<ChildCall>)

  /** `init`: the route starts at auth, and the auth then the main-tab
      coordinator are stored as children under the two fresh ids. */
  function Init(authId: nat, mainId: nat): (c: Coordinator)
    requires authId != mainId
    ensures c.route == Auth
    ensures c.children == [Box(authId, AuthFlow), Box(mainId, MainTabFlow)]
    ensures UniqueIds(c.children)
  {
    var withAuth := StoreChild([], authId, AuthFlow);
    Coordinator(Auth, StoreChild(withAuth, mainId, MainTabFlow))
  }

  /** `start`: back to the auth route whatever the current one, and both
      children are started. */
  function StartApp(c: Coordinator): (e: Effect)
    ensures e.after == c.(route := Auth)
    ensures e.calls == [Start(AuthFlow), Start(MainTabFlow)]
  {
    Effect(c.(route := Auth), [Start(AuthFlow), Start(MainTabFlow)])
  }

  /** `finish`: both children are finished and then forgotten; the route
      stays as it is. */
  function FinishApp(c: Coordinator): (e: Effect)
    ensures e.after.route == c.route && |e.after.children| == 0
    ensures e.calls == [Finish(AuthFlow), Finish(MainTabFlow)]
  {
    Effect(Coordinator(c.route, RemoveAllChildren(c.children)), [Finish(AuthFlow), Finish(MainTabFlow)])
  }

  /** `showAuth`: the main tabs are finished, the route becomes auth and the
      auth flow is started. */
  function ShowAuth(c: Coordinator): (e: Effect)
    ensures e.after == c.(route := Auth)
    ensures e.calls == [Finish(MainTabFlow), Start(AuthFlow)]
  {
    Effect(c.(route := Auth), [Finish(MainTabFlow), Start(AuthFlow)])
  }

  /** `showMain`: the auth flow is finished, the route becomes main and the
      main tabs are started. */
  function ShowMain(c: Coordinator): (e: Effect)
    ensures e.after == c.(route := Main)
    ensures e.calls == [Finish(AuthFlow), Start(MainTabFlow)]
  {
    Effect(c.(route := Main), [Finish(AuthFlow), Start(MainTabFlow)])
  }

  /** Switching to a flow twice lands on the same coordinator as switching
      once. */
  lemma ShowIsIdempotent(c: Coordinator)
    ensures ShowMain(ShowMain(c).after).after == ShowMain(c).after
    ensures ShowAuth(ShowAuth(c).after).after == ShowAuth(c).after
  {
  }

  /** The callbacks bound at construction. */
  datatype Callback = AuthSucceeded | LoggedOut

  /** `bind`: auth success shows the main tabs, logout shows auth. */
  function Handle(c: Coordinator, cb: Callback): (e: Effect)
    ensures cb == AuthSucceeded ==> e.after.route == Main
    ensures cb == LoggedOut ==> e.after.route == Auth
    ensures e.after.children == c.children
  {
    match cb
    case AuthSucceeded => ShowMain(c)
    case LoggedOut => ShowAuth(c)
  }

  // ---------------------------------------------------------------------------
  // Runs of operations

  datatype Op = StartOp | FinishOp | ShowAuthOp | ShowMainOp | CallbackOp(cb: Callback)

  function Apply(c: Coordinator, op: Op): Effect {
    match op
    case StartOp => StartApp(c)
    case FinishOp => FinishApp(c)
    case ShowAuthOp => ShowAuth(c)
    case ShowMainOp => ShowMain(c)
    case CallbackOp(cb) => Handle(c, cb)
  }

  /** The coordinator after a sequence of operations. */
  function Run(c: Coordinator, ops: seq<Op>): Coordinator
    decreases |ops|
  {
    if |ops| == 0 then c else Run(Apply(c, ops[0]).after, ops[1..])
  }

  /** The route an operation leaves, if it sets one. */
  function RouteSetBy(op: Op): Option<AppRoute> {
    match op
    case StartOp | ShowAuthOp | CallbackOp(LoggedOut) => Some(Auth)
    case ShowMainOp | CallbackOp(AuthSucceeded) => Some(Main)
    case FinishOp => None
  }

  /** The last operation that sets a route decides it; with none, the
      route is the one the run started from. */
  function LastRoute(start: AppRoute, ops: seq<Op>): AppRoute
    decreases |ops|
  {
    if |ops| == 0 then start
    else match RouteSetBy(ops[|ops| - 1])
      case Some(r) => r
      case None => LastRoute(start, ops[..|ops| - 1])
  }

  /** A run ends on the route that its last routing operation chose. */
  lemma {:induction false} RunRoute(c: Coordinator, ops: seq<Op>)
    ensures Run(c, ops).route == LastRoute(c.route, ops)
    decreases |ops|
  {
    if |ops| > 0 {
      var c1 := Apply(c, ops[0]).after;
      RunRoute(c1, ops[1..]);
      LastRouteCons(c.route, ops);
    }
  }

  /** Peeling the first operation off a run: its route becomes the new
      starting route. */
  lemma {:induction false} LastRouteCons(start: AppRoute, ops: seq<Op>)
    requires |ops| > 0
    ensures LastRoute(Apply(Coordinator(start, []), ops[0]).after.route, ops[1..]) == LastRoute(start, ops)
    decreases |ops|
  {
    if |ops| > 1 {
      var init := ops[..|ops| - 1];
      assert ops[1..][..|ops[1..]| - 1] == init[1..];
      assert ops[1..][|ops[1..]| - 1] == ops[|ops| - 1];
      assert init[0] == ops[0];
      if RouteSetBy(ops[|ops| - 1]).None? {
        LastRouteCons(start, init);
      }
    }
  }

  /** The children are the two stored at construction until the first
      `finish`, and none afterwards. */
  lemma {:induction false} RunChildren(c: Coordinator, ops: seq<Op>)
    ensures Run(c, ops).children == (if exists i | 0 <= i < |ops| :: ops[i] == FinishOp then [] else c.children)
    decreases |ops|
  {
    if |ops| > 0 {
      var c1 := Apply(c, ops[0]).after;
      RunChildren(c1, ops[1..]);
      if ops[0] == FinishOp {
        assert c1.children == [];
        assert Run(c1, ops[1..]).children == [];
      } else {
        assert c1.children == c.children;
        assert (exists i | 0 <= i < |ops| :: ops[i] == FinishOp)
          <==> (exists i | 0 <= i < |ops[1..]| :: ops[1..][i] == FinishOp) by {
          forall i | 0 < i < |ops| ensures ops[i] == ops[1..][i - 1] {}
        }
      }
    }
  }
}
