/** Telling a dead connection from one bad title by walking an exception graph that may contain cycles
    (catalog_ingest.py `_connection_is_lost`). */
module ConnectionLost {
  import opened Basics

  /** One exception object; links are indices into the graph. */
  datatype Exc = Exc(
    poolFailure: bool,         // PendingRollbackError, DisconnectionError or InterfaceError
    dbapi: bool, connectionInvalidated: bool,
    osError: bool, name: string,
    cause: Option<nat>, context: Option<nat>, orig: Option<nat>)

  type Graph = seq<Exc>

  const DRIVER_ERRORS: set<string> :=
    {"ConnectionDoesNotExistError", "ConnectionFailureError", "ConnectionRejectionError",
     "ClientCannotConnectError", "TooManyConnectionsError"}

  ghost predicate Closed(g: Graph) {
    forall n | 0 <= n < |g| :: forall m | m in Links(g[n]) :: m < |g|
  }

  /** The exceptions pushed for one node: cause, context, orig, where present. */
  function Links(e: Exc): seq<nat> {
    (if e.cause.Some? then [e.cause.value] else [])
    + (if e.context.Some? then [e.context.value] else [])
    + (if e.orig.Some? then [e.orig.value] else [])
  }

  predicate EarlyLost(e: Exc) {
    e.poolFailure || (e.dbapi && e.connectionInvalidated)
  }

  predicate NamesLoss(e: Exc) {
    e.osError || e.name in DRIVER_ERRORS
  }

  /** A chain of links from the first to the last node of the path. */
  ghost predicate IsPath(g: Graph, path: seq<nat>) {
    && path != []
    && (forall i | 0 <= i < |path| :: path[i] < |g|)
    && (forall i | 0 <= i < |path| - 1 :: path[i + 1] in Links(g[path[i]]))
  }

  ghost predicate Reachable(g: Graph, root: nat, n: nat) {
    exists path :: IsPath(g, path) && path[0] == root && path[|path| - 1] == n
  }

  lemma ReachSelf(g: Graph, root: nat)
    requires root < |g|
    ensures Reachable(g, root, root)
  {
    assert IsPath(g, [root]);
  }

  lemma ReachStep(g: Graph, root: nat, n: nat, m: nat)
    requires Reachable(g, root, n) && n < |g| && m in Links(g[n]) && m < |g|
    ensures Reachable(g, root, m)
  {
    var path :| IsPath(g, path) && path[0] == root && path[|path| - 1] == n;
    var longer := path + [m];
    assert longer[0] == root && longer[|longer| - 1] == m;
    forall i | 0 <= i < |longer| - 1
      ensures longer[i + 1] in Links(g[longer[i]])
    {
      assert longer[i] == path[i];
      if i < |path| - 1 {
        assert longer[i + 1] == path[i + 1];
      }
    }
    assert IsPath(g, longer);
  }

  /** A set that contains the root and every link of its members contains everything reachable. */
  lemma {:induction false} ClosedContainsPath(g: Graph, seen: set<nat>, path: seq<nat>, k: nat)
    requires IsPath(g, path) && path[0] in seen && k < |path|
    requires forall n | n in seen && n < |g| :: forall m | m in Links(g[n]) :: m in seen
    ensures path[k] in seen
  {
    if k > 0 {
      ClosedContainsPath(g, seen, path, k - 1);
    }
  }

  /** Everything waiting is reachable. */
  ghost predicate Waiting(g: Graph, root: nat, pending: seq<nat>) {
    forall n | n in pending :: n < |g| && Reachable(g, root, n)
  }

  ghost predicate Harmless(g: Graph, seen: set<nat>) {
    forall n | n in seen :: n < |g| && !NamesLoss(g[n])
  }

  /** Everything seen has handed its links on. */
  ghost predicate HandedOn(g: Graph, seen: set<nat>, pending: seq<nat>) {
    forall n, m | n in seen && n < |g| && m in Links(g[n]) :: m in seen || m in pending
  }

  ghost predicate Progress(g: Graph, root: nat, seen: set<nat>, pending: seq<nat>) {
    && (root in seen || root in pending)
    && Waiting(g, root, pending) && Harmless(g, seen) && HandedOn(g, seen, pending)
  }

  ghost predicate LossReachable(g: Graph, root: nat) {
    exists n: nat :: n < |g| && Reachable(g, root, n) && NamesLoss(g[n])
  }

  lemma ReachedSeen(g: Graph, root: nat, seen: set<nat>, n: nat)
    requires root in seen && HandedOn(g, seen, []) && Reachable(g, root, n)
    ensures n in seen
  {
    var path :| IsPath(g, path) && path[0] == root && path[|path| - 1] == n;
    ClosedContainsPath(g, seen, path, |path| - 1);
  }

  /** Once nothing is waiting, no error that names a lost connection can be reached. */
  lemma DrainedMeansHarmless(g: Graph, root: nat, seen: set<nat>)
    requires Progress(g, root, seen, [])
    ensures !LossReachable(g, root)
  {
    if LossReachable(g, root) {
      var n: nat :| n < |g| && Reachable(g, root, n) && NamesLoss(g[n]);
      ReachedSeen(g, root, seen, n);
    }
  }

  lemma LastWaiting(g: Graph, root: nat, seen: set<nat>, pending: seq<nat>)
    requires Progress(g, root, seen, pending) && pending != []
    ensures var rest, n := pending[..|pending| - 1], pending[|pending| - 1];
            && n < |g| && Progress(g, root, seen, rest + [n])
            && (NamesLoss(g[n]) ==> LossReachable(g, root))
  {
    assert pending == pending[..|pending| - 1] + [pending[|pending| - 1]];
    assert pending[|pending| - 1] in pending;
  }

  lemma SeenGrows(g: Graph, seen: set<nat>, n: nat)
    requires Harmless(g, seen) && n < |g| && n !in seen
    ensures |seen| < |seen + {n}| <= |g|
  {
    IntervalSize(seen + {n}, 0, |g|);
  }

  lemma InAppend(s: seq<nat>, x: nat)
    ensures forall m :: m in s + [x] <==> m in s || m == x
  {}

  lemma WaitingStep(g: Graph, root: nat, pending: seq<nat>, n: nat)
    requires Closed(g) && Waiting(g, root, pending + [n]) && n < |g|
    ensures Waiting(g, root, pending + Links(g[n]))
  {
    InAppend(pending, n);
    forall m | m in pending + Links(g[n])
      ensures m < |g| && Reachable(g, root, m)
    {
      if m !in pending {
        assert m in Links(g[n]);
        ReachStep(g, root, n, m);
      }
    }
  }

  lemma HandedOnStep(g: Graph, seen: set<nat>, pending: seq<nat>, n: nat)
    requires HandedOn(g, seen, pending + [n]) && n < |g|
    ensures HandedOn(g, seen + {n}, pending + Links(g[n]))
    ensures n in seen ==> HandedOn(g, seen, pending)
  {
    InAppend(pending, n);
  }

  /** A new harmless node is marked and its links are queued. */
  lemma VisitNode(g: Graph, root: nat, seen: set<nat>, pending: seq<nat>, n: nat)
    requires Closed(g) && Progress(g, root, seen, pending + [n]) && n < |g| && !NamesLoss(g[n])
    ensures Progress(g, root, seen + {n}, pending + Links(g[n]))
  {
    InAppend(pending, n);
    WaitingStep(g, root, pending, n);
    HandedOnStep(g, seen, pending, n);
  }

  /** A node met again is dropped. */
  lemma SkipNode(g: Graph, root: nat, seen: set<nat>, pending: seq<nat>, n: nat)
    requires Progress(g, root, seen, pending + [n]) && n in seen
    ensures Progress(g, root, seen, pending)
  {
    InAppend(pending, n);
    HandedOnStep(g, seen, pending, n);
  }

  /** Past its early type checks the walk answers exactly whether a lost-connection error is reachable. */
  method ConnectionIsLost(g: Graph, root: nat) returns (lost: bool)
    requires Closed(g) && root < |g|
    ensures lost <==> EarlyLost(g[root]) || LossReachable(g, root)
  {
    if EarlyLost(g[root]) {
      return true;
    }
    var seen: set<nat> := {};
    var pending: seq<nat> := [root];
    ReachSelf(g, root);
    while pending != []
      invariant Progress(g, root, seen, pending)
      decreases |g| - |seen|, |pending|
    {
      var cause := pending[|pending| - 1];
      var rest := pending[..|pending| - 1];
      LastWaiting(g, root, seen, pending);
      if cause in seen {
        SkipNode(g, root, seen, rest, cause);
        pending := rest;
      } else if NamesLoss(g[cause]) {
        return true;
      } else {
        VisitNode(g, root, seen, rest, cause);
        SeenGrows(g, seen, cause);
        seen := seen + {cause};
        pending := rest + Links(g[cause]);
      }
    }
    DrainedMeansHarmless(g, root, seen);
    lost := false;
  }

  // ---- Which errors are losses ----

  /** An error that says nothing by itself: neither pooled nor of the driver, whatever it is called. */
  ghost predicate Plain(e: Exc) {
    && !e.poolFailure && !(e.dbapi && e.connectionInvalidated) && !e.osError
    && e.name != "ConnectionDoesNotExistError" && e.name != "ConnectionFailureError"
    && e.name != "ConnectionRejectionError" && e.name != "ClientCannotConnectError"
    && e.name != "TooManyConnectionsError"
  }

  lemma PlainIsHarmless(e: Exc)
    ensures Plain(e) <==> !EarlyLost(e) && !NamesLoss(e)
  {}

  /** One error, linked in any of the three ways behind another, decides. */
  lemma LinkedDecides(g: Graph, root: nat, n: nat)
    requires Closed(g) && root < |g| && n < |g|
    requires g[root].cause == Some(n) || g[root].context == Some(n) || g[root].orig == Some(n)
    requires g[n].osError || g[n].name == "ConnectionDoesNotExistError" || g[n].name == "ConnectionFailureError"
             || g[n].name == "ConnectionRejectionError" || g[n].name == "ClientCannotConnectError"
             || g[n].name == "TooManyConnectionsError"
    ensures LossReachable(g, root)
  {
    LinkFound(g[root], n);
    ReachSelf(g, root);
    ReachStep(g, root, root, n);
    assert NamesLoss(g[n]);
  }

  lemma LinkFound(e: Exc, n: nat)
    ensures e.cause == Some(n) || e.context == Some(n) || e.orig == Some(n) <==> n in Links(e)
  {}

  /** A graph of plain errors only, however they are linked, is not a loss. */
  lemma PlainGraphIsKept(g: Graph, root: nat)
    requires root < |g| && forall n | 0 <= n < |g| :: Plain(g[n])
    ensures !EarlyLost(g[root]) && !LossReachable(g, root)
  {
    forall n | 0 <= n < |g|
      ensures !EarlyLost(g[n]) && !NamesLoss(g[n])
    {
      PlainIsHarmless(g[n]);
    }
  }

  /** A pool failure, and a driver error whose connection is gone, are losses by themselves; deeper down they only count
      when they name one. */
  lemma OnlyTheRootIsChecked()
    ensures var pooled := Exc(true, false, false, false, "InterfaceError", None, None, None);
            var wrapper := Exc(false, false, false, false, "RuntimeError", Some(0), None, None);
            && EarlyLost(pooled)
            && !EarlyLost(wrapper) && !LossReachable([pooled, wrapper], 1)
  {
    var pooled := Exc(true, false, false, false, "InterfaceError", None, None, None);
    var wrapper := Exc(false, false, false, false, "RuntimeError", Some(0), None, None);
    forall n: nat | n < 2
      ensures !NamesLoss([pooled, wrapper][n])
    {
      assert "InterfaceError" !in DRIVER_ERRORS && "RuntimeError" !in DRIVER_ERRORS;
    }
  }
}
