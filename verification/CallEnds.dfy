/** More atomic steps: delivery, reply, and the death of threads and processes. */
module CallEnds {
  import opened Words
  import opened CallStack
  import opened CallSteps

  // ---- Delivery ----

  function TakeOwn(s: State, a: Tid): State
    requires a in s.threads && s.threads[a].todo != [] && s.threads[a].todo[0].Call? && s.threads[a].todo[0].x in s.txns
  {
    var th := s.threads[a];
    WithPlace(SetThread(s, a, th.(todo := th.todo[1..], busy := Holding(th.todo[0].x))), th.todo[0].x, Taken(a))
  }

  function TakeProc(s: State, a: Tid): State
    requires a in s.threads && s.threads[a].proc in s.procTodo && s.procTodo[s.threads[a].proc] != []
    requires s.procTodo[s.threads[a].proc][0] in s.txns
  {
    var th, p := s.threads[a], s.threads[a].proc;
    var x := s.procTodo[p][0];
    WithPlace(SetThread(s, a, th.(busy := Holding(x))), x, Taken(a)).(procTodo := s.procTodo[p := s.procTodo[p][1..]])
  }

  predicate OwnCall(s: State, a: Tid) {
    a in s.threads && Free(s.threads[a]) && s.threads[a].todo != [] && s.threads[a].todo[0].Call?
  }

  lemma OwnCallFacts(s: State, g: History, a: Tid)
    requires Inv(s, g) && OwnCall(s, a)
    ensures var x := s.threads[a].todo[0].x;
            x in s.txns && s.txns[x].place == QueuedAt(a) && Childless(s, x) && Calls(s.threads[a].todo) == [x]
    ensures Calls(s.threads[a].todo[1..]) == []
  {
    hide Inv, StackOk, BusyOk;
    ThreadAt(s, g, a);
    var x := s.threads[a].todo[0].x;
    assert Calls(s.threads[a].todo)[0] == x;
    assert x in Calls(s.threads[a].todo);
    ChildlessPlace(s, g, x);
  }

  lemma TakeOwnTxn(s: State, g: History, a: Tid, y: Xid)
    requires Inv(s, g) && OwnCall(s, a) && s.threads[a].todo[0].x in s.txns && y in s.txns
    ensures TxnOk(TakeOwn(s, a), g, y)
  {
    hide Inv, Calls, Reaches, Waits;
    OwnCallFacts(s, g, a);
    TxnAt(s, g, y);
    var s', x := TakeOwn(s, a), s.threads[a].todo[0].x;
    if s.txns[y].fromParent == Some(x) { NoChild(s, y, x); }
    assert forall d :: ChildOf(s', d, y) == ChildOf(s, d, y);
    forall d, z | d in s.threads && Waits(s, g, d, z) ensures Waits(s', g, d, z) { WaitsSame(s, g, s', d, z); }
  }

  lemma TakeOwnThread(s: State, g: History, a: Tid, b: Tid)
    requires Inv(s, g) && OwnCall(s, a) && s.threads[a].todo[0].x in s.txns && b in s.threads
    ensures ThreadOk(TakeOwn(s, a), g, b)
  {
    hide Inv, Calls, Reaches, Waits, Link;
    OwnCallFacts(s, g, a);
    ThreadAt(s, g, b);
    var s', x := TakeOwn(s, a), s.threads[a].todo[0].x;
    forall k | 0 <= k < |g.stk[b]| ensures Link(s', g.stk[b], b, k) {
      LinkTxn(s, g.stk[b], b, k);
      LinkFrame(s, s', g.stk[b], b, k);
    }
    forall d, z | d in s.threads && Waits(s, g, d, z) ensures Waits(s', g, d, z) { WaitsSame(s, g, s', d, z); }
  }

  lemma TakeOwnInv(s: State, g: History, a: Tid)
    requires Inv(s, g) && OwnCall(s, a)
    ensures s.threads[a].todo[0].x in s.txns && Inv(TakeOwn(s, a), g)
  {
    hide TxnOk, ThreadOk;
    OwnCallFacts(s, g, a);
    var s' := TakeOwn(s, a);
    forall y | y in s'.txns ensures TxnOk(s', g, y) { TakeOwnTxn(s, g, a, y); }
    forall b | b in s'.threads ensures ThreadOk(s', g, b) { TakeOwnThread(s, g, a, b); }
    assert forall d, q :: ChildOf(s', d, q) == ChildOf(s, d, q);
  }

  predicate ProcCall(s: State, a: Tid) {
    && a in s.threads && Available(s.threads[a]) && !s.threads[a].waiting
    && s.threads[a].proc in s.procTodo && s.procTodo[s.threads[a].proc] != []
  }

  lemma ProcCallFacts(s: State, g: History, a: Tid)
    requires Inv(s, g) && ProcCall(s, a)
    ensures var q := s.procTodo[s.threads[a].proc];
            && q[0] in s.txns && s.txns[q[0]].place == QueuedProc(s.threads[a].proc) && Childless(s, q[0])
            && q[0] !in q[1..] && Distinct(q[1..])
            && (forall y :: y in q[1..] ==> y in q) && (forall y :: y in q && y != q[0] ==> y in q[1..])
  {
    hide Inv, StackOk, BusyOk;
    Globals(s, g);
    var q := s.procTodo[s.threads[a].proc];
    assert q[0] in q && Distinct(q);
    assert q == [q[0]] + q[1..];
    ChildlessPlace(s, g, q[0]);
  }

  lemma TakeProcTxn(s: State, g: History, a: Tid, y: Xid)
    requires Inv(s, g) && ProcCall(s, a) && s.procTodo[s.threads[a].proc][0] in s.txns && y in s.txns
    ensures TxnOk(TakeProc(s, a), g, y)
  {
    hide Inv, Calls, Reaches;
    ProcCallFacts(s, g, a);
    TxnAt(s, g, y);
    var s', x := TakeProc(s, a), s.procTodo[s.threads[a].proc][0];
    if s.txns[y].fromParent == Some(x) { NoChild(s, y, x); }
    assert forall d :: ChildOf(s', d, y) == ChildOf(s, d, y);
    forall d, z | d in s.threads && Waits(s, g, d, z) ensures Waits(s', g, d, z) { WaitsSame(s, g, s', d, z); }
  }

  lemma TakeProcThread(s: State, g: History, a: Tid, b: Tid)
    requires Inv(s, g) && ProcCall(s, a) && s.procTodo[s.threads[a].proc][0] in s.txns && b in s.threads
    ensures ThreadOk(TakeProc(s, a), g, b)
  {
    hide Inv, Reaches, Waits, Link;
    ProcCallFacts(s, g, a);
    ThreadAt(s, g, b);
    var s', x := TakeProc(s, a), s.procTodo[s.threads[a].proc][0];
    forall k | 0 <= k < |g.stk[b]| ensures Link(s', g.stk[b], b, k) {
      LinkTxn(s, g.stk[b], b, k);
      LinkFrame(s, s', g.stk[b], b, k);
    }
    forall d, z | d in s.threads && Waits(s, g, d, z) ensures Waits(s', g, d, z) { WaitsSame(s, g, s', d, z); }
  }

  lemma TakeProcInv(s: State, g: History, a: Tid)
    requires Inv(s, g) && ProcCall(s, a)
    ensures s.procTodo[s.threads[a].proc][0] in s.txns && Inv(TakeProc(s, a), g)
  {
    hide TxnOk, ThreadOk;
    ProcCallFacts(s, g, a);
    var s' := TakeProc(s, a);
    forall y | y in s'.txns ensures TxnOk(s', g, y) { TakeProcTxn(s, g, a, y); }
    forall b | b in s'.threads ensures ThreadOk(s', g, b) { TakeProcThread(s, g, a, b); }
    assert forall d, q :: ChildOf(s', d, q) == ChildOf(s, d, q);
    Globals(s, g);
    TakeProcTodo(s, g, a);
  }

  lemma TakeProcTodo(s: State, g: History, a: Tid)
    requires Inv(s, g) && ProcCall(s, a) && s.procTodo[s.threads[a].proc][0] in s.txns
    ensures ProcTodoOk(TakeProc(s, a))
  {
    hide Inv, Distinct;
    ProcCallFacts(s, g, a);
    Globals(s, g);
  }

  predicate IsTaken(s: State, a: Tid) {
    && a in s.threads && s.threads[a].busy.Holding? && s.threads[a].busy.x in s.txns
    && s.txns[s.threads[a].busy.x].place == Taken(a)
  }

  /** The transaction in hand goes on top of the server's stack. */
  function Accept(s: State, a: Tid): State
    requires a in s.threads && s.threads[a].busy.Holding? && s.threads[a].busy.x in s.txns
  {
    var th, x := s.threads[a], s.threads[a].busy.x;
    var t := s.txns[x].(toParent := th.stack, toThread := Some(a), place := Delivered(a));
    SetThread(s, a, th.(stack := Some(x), busy := Idle)).(txns := s.txns[x := t])
  }

  ghost function AcceptHistory(s: State, g: History, a: Tid): History
    requires a in s.threads && s.threads[a].busy.Holding? && a in g.stk
  {
    g.(stk := g.stk[a := [s.threads[a].busy.x] + g.stk[a]])
  }

  lemma TakenFacts(s: State, g: History, a: Tid)
    requires Inv(s, g) && IsTaken(s, a)
    ensures var x := s.threads[a].busy.x;
            && Alive(s, a) && a in g.stk && Childless(s, x) && Waits(s, g, a, x)
            && s.txns[x].toProc == Some(s.threads[a].proc) && s.txns[x].from != Some(a)
            && Calls(s.threads[a].todo) == []
            && (forall y :: y in g.stk[a] ==> y < x)
            && s.threads[a].stack != Some(x)
    ensures forall y :: y != s.threads[a].busy.x ==> !Claims(s, a, y)
    ensures forall b :: !PlansFor(s, b, a)
  {
    hide Inv, Claims, PlansFor, StackOk, TodoOk;
    var x := s.threads[a].busy.x;
    HoldingFacts(s, g, a);
    TxnAt(s, g, x);
    ThreadAt(s, g, a);
    StackOf(s, g, a);
    TakenAbove(s, g, a);
    forall y | y != x ensures !Claims(s, a, y) { TakenAlone(s, g, a, y); }
    forall b ensures !PlansFor(s, b, a) {
      if PlansFor(s, b, a) {
        PlanWaits(s, g, b, a);
        UniqueLeaf(s, g, x, s.threads[b].stack.value, s.threads[a].stack.value);
      }
    }
  }

  lemma TakenAbove(s: State, g: History, a: Tid)
    requires Inv(s, g) && IsTaken(s, a)
    ensures a in g.stk && forall y :: y in g.stk[a] ==> y < s.threads[a].busy.x
  {
    hide Inv, TodoOk, BusyOk;
    var x := s.threads[a].busy.x;
    TxnAt(s, g, x);
    ThreadAt(s, g, a);
    if s.threads[a].stack.Some? {
      ReachesDown(g.parent, x, s.threads[a].stack.value);
      assert s.threads[a].stack.value != x;
      forall y | y in g.stk[a] ensures y < x {
        NotBelowTop(s, g, a, y) by { OnStackTxn(s, g, a, y); }
      }
    }
  }

  lemma OnStackTxn(s: State, g: History, a: Tid, y: Xid)
    requires Inv(s, g) && a in s.threads && a in g.stk && y in g.stk[a]
    ensures y in s.txns
  {
    var k :| 0 <= k < |g.stk[a]| && g.stk[a][k] == y;
    LinkAt(s, g, a, k);
  }

  lemma TakenAlone(s: State, g: History, a: Tid, y: Xid)
    requires Inv(s, g) && IsTaken(s, a) && y != s.threads[a].busy.x
    ensures !Claims(s, a, y)
  {
    hide Inv, StackOk;
    var x := s.threads[a].busy.x;
    if Claims(s, a, y) {
      HoldingFacts(s, g, a);
      TxnAt(s, g, x);
      TxnAt(s, g, y);
      ThreadAt(s, g, a);
      if s.threads[a].stack.Some? { OtherClaim(s, g, a, y, x, s.threads[a].stack.value); }
    }
  }

  lemma AcceptTxn(s: State, g: History, a: Tid, y: Xid)
    requires Inv(s, g) && IsTaken(s, a) && a in g.stk && y in s.txns
    ensures TxnOk(Accept(s, a), AcceptHistory(s, g, a), y)
  {
    hide Inv, Calls, Reaches;
    TakenFacts(s, g, a);
    TxnAt(s, g, y);
    var s', g', x := Accept(s, a), AcceptHistory(s, g, a), s.threads[a].busy.x;
    if s.txns[y].fromParent == Some(x) { NoChild(s, y, x); }
    assert forall d :: ChildOf(s', d, y) == ChildOf(s, d, y);
    assert y != x ==> !Claims(s, a, y);
    forall d, z | d in s.threads && d != a && Waits(s, g, d, z) ensures Waits(s', g', d, z) { WaitsSame(s, g, s', d, z); }
  }

  lemma AcceptThread(s: State, g: History, a: Tid, b: Tid)
    requires Inv(s, g) && IsTaken(s, a) && a in g.stk && b in s.threads
    ensures ThreadOk(Accept(s, a), AcceptHistory(s, g, a), b)
  {
    hide Inv, Calls, Reaches, Waits, Link;
    TakenFacts(s, g, a);
    ThreadAt(s, g, b);
    var s', g', x := Accept(s, a), AcceptHistory(s, g, a), s.threads[a].busy.x;
    assert !PlansFor(s, b, a);
    forall k | 0 <= k < |g.stk[b]| ensures Link(s', g.stk[b], b, k) {
      LinkTxn(s, g.stk[b], b, k);
      assert b == a ==> g.stk[b][k] in g.stk[a];
      LinkFrame(s, s', g.stk[b], b, k);
    }
    if b == a {
      forall k | 0 <= k < |g'.stk[a]| ensures Link(s', g'.stk[a], a, k) {
        if k > 0 { LinkPushed(s', g.stk[a], a, x, k - 1); } else { NewServed(s', g.stk[a], a, x); }
      }
    }
    forall d, z | d in s.threads && d != a && Waits(s, g, d, z) ensures Waits(s', g', d, z) { WaitsGrows(s, g, s', g', d, z); }
    DescendingPush(g.stk[a], x);
  }

  lemma DescendingPush(st: seq<Xid>, x: Xid)
    requires forall y :: y in st ==> y < x
    ensures Descending(st) ==> Descending([x] + st)
  {
    assert forall j :: 0 <= j < |st| ==> st[j] in st;
  }

  lemma NewServed(s: State, st: seq<Xid>, a: Tid, x: Xid)
    requires x in s.txns && s.txns[x].place == Delivered(a) && s.txns[x].toParent == Head(st)
    ensures Link(s, [x] + st, a, 0)
  {
    assert ([x] + st)[1..] == st;
  }

  lemma AcceptInv(s: State, g: History, a: Tid)
    requires Inv(s, g) && IsTaken(s, a)
    ensures a in g.stk && Inv(Accept(s, a), AcceptHistory(s, g, a))
  {
    hide TxnOk, ThreadOk;
    TakenFacts(s, g, a);
    var s', g' := Accept(s, a), AcceptHistory(s, g, a);
    forall y | y in s'.txns ensures TxnOk(s', g', y) { AcceptTxn(s, g, a, y); }
    forall b | b in s'.threads ensures ThreadOk(s', g', b) { AcceptThread(s, g, a, b); }
    AcceptGlobals(s, g, a);
  }

  lemma AcceptGlobals(s: State, g: History, a: Tid)
    requires Inv(s, g) && IsTaken(s, a) && a in g.stk
    ensures OneChild(Accept(s, a)) && ProcTodoOk(Accept(s, a)) && HistoryOk(Accept(s, a), AcceptHistory(s, g, a))
  {
    hide Inv, Distinct;
    Globals(s, g);
    var s' := Accept(s, a);
    assert forall d, q :: ChildOf(s', d, q) == ChildOf(s, d, q);
  }

  // ---- Reply: off the server's stack ----

  predicate IsServing(s: State, a: Tid) {
    && a in s.threads && Free(s.threads[a]) && s.threads[a].stack.Some? && s.threads[a].stack.value in s.txns
    && s.txns[s.threads[a].stack.value].toThread == Some(a)
  }

  /** The replying thread drops the call from its stack; it holds it while the caller lives. */
  function ReplyPop(s: State, a: Tid): State
    requires a in s.threads && s.threads[a].stack.Some? && s.threads[a].stack.value in s.txns
  {
    var th, x := s.threads[a], s.threads[a].stack.value;
    var live := s.txns[x].from.Some?;
    WithPlace(SetThread(s, a, th.(stack := s.txns[x].toParent, busy := if live then Holding(x) else Idle)), x,
              if live then Replying(a) else Failing)
  }

  ghost function ReplyHistory(g: History, a: Tid): History
    requires a in g.stk && g.stk[a] != []
  {
    g.(stk := g.stk[a := g.stk[a][1..]])
  }

  lemma ServingFacts(s: State, g: History, a: Tid)
    requires Inv(s, g) && IsServing(s, a)
    ensures var x := s.threads[a].stack.value;
            && s.txns[x].place == Delivered(a) && Childless(s, x) && s.txns[x].from != Some(a)
            && a in g.stk && g.stk[a] != [] && g.stk[a][0] == x && Unclaimed(s, a) && Alive(s, a)
            && s.txns[x].toParent == Head(g.stk[a][1..])
            && (forall k :: 0 < k < |g.stk[a]| ==> g.stk[a][k] < x)
    ensures Calls(s.threads[a].todo) == []
  {
    hide Inv, Claims, PlansFor, Unclaimed, BusyOk;
    TopServed(s, g, a);
    TopServedIsLeaf(s, g, a);
    StackOf(s, g, a);
    LinkAt(s, g, a, 0);
    ServingUnclaimed(s, g, a);
    ThreadAt(s, g, a);
    UnclaimedTodo(s, a);
  }

  lemma ReplyPopTxn(s: State, g: History, a: Tid, y: Xid)
    requires Inv(s, g) && IsServing(s, a) && a in g.stk && g.stk[a] != [] && y in s.txns
    ensures TxnOk(ReplyPop(s, a), ReplyHistory(g, a), y)
  {
    hide Inv, Calls, Reaches, Unclaimed;
    ServingFacts(s, g, a);
    TxnAt(s, g, y);
    UnclaimedBy(s, a, y);
    var s', g', x := ReplyPop(s, a), ReplyHistory(g, a), s.threads[a].stack.value;
    if s.txns[y].fromParent == Some(x) { NoChild(s, y, x); }
    assert forall d :: ChildOf(s', d, y) == ChildOf(s, d, y);
    if y != x && y in g.stk[a] { assert y in g.stk[a][1..] by { InTail(g.stk[a], y); } }
    forall d, z | d in s.threads && d != a && Waits(s, g, d, z) ensures Waits(s', g', d, z) { WaitsGrows(s, g, s', g', d, z); }
  }

  lemma InTail(st: seq<Xid>, y: Xid)
    requires y in st && st[0] != y
    ensures y in st[1..]
  {
    assert st == [st[0]] + st[1..];
  }

  lemma ReplyPopThread(s: State, g: History, a: Tid, b: Tid)
    requires Inv(s, g) && IsServing(s, a) && a in g.stk && g.stk[a] != [] && b in s.threads
    ensures ThreadOk(ReplyPop(s, a), ReplyHistory(g, a), b)
  {
    hide Inv, Calls, Reaches, Waits, Link, Unclaimed;
    ServingFacts(s, g, a);
    ThreadAt(s, g, b);
    UnplannedBy(s, a, b);
    var s', g', x := ReplyPop(s, a), ReplyHistory(g, a), s.threads[a].stack.value;
    forall k | 0 <= k < |g'.stk[b]| ensures Link(s', g'.stk[b], b, k) {
      var j := if b == a then k + 1 else k;
      LinkTxn(s, g.stk[b], b, j);
      LinkFrame(s, s', g.stk[b], b, j);
      if b == a { LinkPopped(s', g.stk[a], a, k); }
    }
    forall d, z | d in s.threads && d != a && Waits(s, g, d, z) ensures Waits(s', g', d, z) { WaitsGrows(s, g, s', g', d, z); }
  }

  lemma ReplyPopInv(s: State, g: History, a: Tid)
    requires Inv(s, g) && IsServing(s, a)
    ensures a in g.stk && g.stk[a] != [] && Inv(ReplyPop(s, a), ReplyHistory(g, a))
  {
    hide TxnOk, ThreadOk, Unclaimed;
    ServingFacts(s, g, a);
    var s', g' := ReplyPop(s, a), ReplyHistory(g, a);
    forall y | y in s'.txns ensures TxnOk(s', g', y) { ReplyPopTxn(s, g, a, y); }
    forall b | b in s'.threads ensures ThreadOk(s', g', b) { ReplyPopThread(s, g, a, b); }
    assert forall d, q :: ChildOf(s', d, q) == ChildOf(s, d, q);
  }

  // ---- A thread dies ----

  /** What the death of thread a, with `top` on its stack, makes of a transaction. */
  function Bereft(t: Txn, a: Tid, isTop: bool): Txn {
    if t.place == Delivered(a) then t.(toProc := None, toThread := None, place := if isTop then Failing else Orphan)
    else if t.from == Some(a) then t.(from := None)
    else t
  }

  function Die(s: State, a: Tid): State
    requires a in s.threads
  {
    var th := s.threads[a];
    SetThread(s, a, th.(stack := None, dead := true))
      .(txns := map y | y in s.txns :: Bereft(s.txns[y], a, th.stack == Some(y)))
  }

  ghost function DieHistory(g: History, a: Tid): History {
    g.(stk := g.stk[a := []])
  }

  /** Whatever lies right above a call being served was made while serving it. */
  lemma AboveServed(s: State, g: History, a: Tid, y: Xid) returns (c: Xid)
    requires Inv(s, g) && Alive(s, a) && y in s.txns && s.txns[y].place == Delivered(a) && s.threads[a].stack != Some(y)
    ensures ChildOf(s, c, y) && s.txns[c].from == Some(a)
  {
    hide Inv, BusyOk, TodoOk;
    TxnAt(s, g, y);
    StackOf(s, g, a);
    var k :| 0 <= k < |g.stk[a]| && g.stk[a][k] == y;
    LinkReaches(s, g, a, k - 1);
    LinkAt(s, g, a, k - 1);
    c := g.stk[a][k - 1];
    if s.txns[c].place == Delivered(a) { NotOwnCaller(s, g, a, y); }
  }

  lemma NotOwnCaller(s: State, g: History, a: Tid, y: Xid)
    requires Inv(s, g) && y in s.txns && s.txns[y].place == Delivered(a)
    ensures s.txns[y].from != Some(a)
  {
    TxnAt(s, g, y);
  }

  lemma DieTxn(s: State, g: History, a: Tid, y: Xid)
    requires Inv(s, g) && Alive(s, a) && s.threads[a].busy == Idle && y in s.txns
    ensures TxnOk(Die(s, a), DieHistory(g, a), y)
  {
    hide Inv, Calls, Reaches;
    TxnAt(s, g, y);
    var s', g', t := Die(s, a), DieHistory(g, a), s.txns[y];
    assert forall d :: ChildOf(s', d, y) == ChildOf(s, d, y);
    if t.place == Delivered(a) && s.threads[a].stack != Some(y) {
      var c := AboveServed(s, g, a, y);
      assert ChildOf(s', c, y);
    }
    DieParent(s, g, a, y);
    if t.place.Delivered? && t.toParent.Some? { assert s'.txns[t.toParent.value] == Bereft(s.txns[t.toParent.value], a, s.threads[a].stack == t.toParent); }
    forall d, z | Alive(s, d) && d != a && Waits(s, g, d, z) ensures Waits(s', g', d, z) { DieWaits(s, g, a, d, z); }
  }

  /** Callers and calls lose each other together. */
  lemma DieParent(s: State, g: History, a: Tid, y: Xid)
    requires Inv(s, g) && Alive(s, a) && y in s.txns
    ensures ParentOk(Die(s, a), DieHistory(g, a), y)
  {
    hide Inv;
    TxnAt(s, g, y);
    var t := s.txns[y];
    if t.fromParent.Some? && t.from == Some(a) && s.threads[a].stack == t.fromParent {
      TopServedIsLeaf(s, g, a);
      NoChild(s, y, t.fromParent.value);
    }
    if t.place == Delivered(a) { NotOwnCaller(s, g, a, y); }
  }

  lemma DieWaits(s: State, g: History, a: Tid, d: Tid, z: Xid)
    requires a in s.threads && d in s.threads && d != a && Waits(s, g, d, z)
    ensures Waits(Die(s, a), DieHistory(g, a), d, z)
  {
  }

  lemma DieThread(s: State, g: History, a: Tid, b: Tid)
    requires Inv(s, g) && Alive(s, a) && s.threads[a].busy == Idle && !s.threads[a].waiting && b in s.threads
    ensures ThreadOk(Die(s, a), DieHistory(g, a), b)
  {
    hide Inv, Calls, Reaches, Waits, Link;
    ThreadAt(s, g, b);
    var s', g' := Die(s, a), DieHistory(g, a);
    forall k | 0 <= k < |g'.stk[b]| ensures Link(s', g'.stk[b], b, k) {
      LinkTxn(s, g.stk[b], b, k);
      DieLink(s, a, g.stk[b], b, k);
    }
    forall d, z | Alive(s, d) && d != a && Waits(s, g, d, z) ensures Waits(s', g', d, z) { DieWaits(s, g, a, d, z); }
  }

  lemma DieLink(s: State, a: Tid, st: seq<Xid>, b: Tid, k: nat)
    requires a in s.threads && a != b && k < |st| && Link(s, st, b, k)
    ensures Link(Die(s, a), st, b, k)
  {
  }

  lemma DieInv(s: State, g: History, a: Tid)
    requires Inv(s, g) && Alive(s, a) && s.threads[a].busy == Idle && !s.threads[a].waiting
    ensures Inv(Die(s, a), DieHistory(g, a))
  {
    hide TxnOk, ThreadOk;
    var s', g' := Die(s, a), DieHistory(g, a);
    forall y | y in s'.txns ensures TxnOk(s', g', y) { DieTxn(s, g, a, y); }
    forall b | b in s'.threads ensures ThreadOk(s', g', b) { DieThread(s, g, a, b); }
    assert forall d, q :: ChildOf(s', d, q) == ChildOf(s, d, q);
  }

  // ---- Calls that were queued where nobody will fetch them ----

  function DropOwn(s: State, c: Tid): State
    requires c in s.threads && s.threads[c].todo != [] && s.threads[c].todo[0].Call? && s.threads[c].todo[0].x in s.txns
  {
    var th := s.threads[c];
    WithPlace(SetThread(s, c, th.(todo := th.todo[1..])), th.todo[0].x, Failing)
  }

  function DropProc(s: State, p: Pid): State
    requires p in s.procTodo && s.procTodo[p] != [] && s.procTodo[p][0] in s.txns
  {
    WithPlace(s, s.procTodo[p][0], Failing).(procTodo := s.procTodo[p := s.procTodo[p][1..]])
  }

  predicate DeadCall(s: State, c: Tid) {
    c in s.threads && s.threads[c].dead && s.threads[c].todo != [] && s.threads[c].todo[0].Call?
  }

  lemma DeadCallFacts(s: State, g: History, c: Tid)
    requires Inv(s, g) && DeadCall(s, c)
    ensures var x := s.threads[c].todo[0].x;
            x in s.txns && s.txns[x].place == QueuedAt(c) && Childless(s, x) && Calls(s.threads[c].todo) == [x]
    ensures Calls(s.threads[c].todo[1..]) == []
  {
    hide Inv, StackOk, BusyOk;
    ThreadAt(s, g, c);
    var x := s.threads[c].todo[0].x;
    assert Calls(s.threads[c].todo)[0] == x;
    assert x in Calls(s.threads[c].todo);
    ChildlessPlace(s, g, x);
  }

  lemma DropOwnTxn(s: State, g: History, c: Tid, y: Xid)
    requires Inv(s, g) && DeadCall(s, c) && s.threads[c].todo[0].x in s.txns && y in s.txns
    ensures TxnOk(DropOwn(s, c), g, y)
  {
    hide Inv, Calls, Reaches, Waits;
    DeadCallFacts(s, g, c);
    TxnAt(s, g, y);
    var s', x := DropOwn(s, c), s.threads[c].todo[0].x;
    if s.txns[y].fromParent == Some(x) { NoChild(s, y, x); }
    assert forall d :: ChildOf(s', d, y) == ChildOf(s, d, y);
    forall d, z | d in s.threads && Waits(s, g, d, z) ensures Waits(s', g, d, z) { WaitsSame(s, g, s', d, z); }
  }

  lemma DropOwnThread(s: State, g: History, c: Tid, b: Tid)
    requires Inv(s, g) && DeadCall(s, c) && s.threads[c].todo[0].x in s.txns && b in s.threads
    ensures ThreadOk(DropOwn(s, c), g, b)
  {
    hide Inv, Calls, Reaches, Waits, Link;
    DeadCallFacts(s, g, c);
    ThreadAt(s, g, b);
    var s' := DropOwn(s, c);
    forall k | 0 <= k < |g.stk[b]| ensures Link(s', g.stk[b], b, k) {
      LinkTxn(s, g.stk[b], b, k);
      LinkFrame(s, s', g.stk[b], b, k);
    }
    forall d, z | d in s.threads && Waits(s, g, d, z) ensures Waits(s', g, d, z) { WaitsSame(s, g, s', d, z); }
  }

  lemma DropOwnInv(s: State, g: History, c: Tid)
    requires Inv(s, g) && DeadCall(s, c)
    ensures s.threads[c].todo[0].x in s.txns && Inv(DropOwn(s, c), g)
  {
    hide TxnOk, ThreadOk;
    DeadCallFacts(s, g, c);
    var s' := DropOwn(s, c);
    forall y | y in s'.txns ensures TxnOk(s', g, y) { DropOwnTxn(s, g, c, y); }
    forall b | b in s'.threads ensures ThreadOk(s', g, b) { DropOwnThread(s, g, c, b); }
    assert forall d, q :: ChildOf(s', d, q) == ChildOf(s, d, q);
  }

  lemma DeadProcFacts(s: State, g: History, p: Pid)
    requires Inv(s, g) && p in s.procTodo && s.procTodo[p] != []
    ensures var q := s.procTodo[p];
            && q[0] in s.txns && s.txns[q[0]].place == QueuedProc(p) && Childless(s, q[0])
            && q[0] !in q[1..] && Distinct(q[1..])
            && (forall y :: y in q[1..] ==> y in q) && (forall y :: y in q && y != q[0] ==> y in q[1..])
  {
    hide Inv;
    Globals(s, g);
    var q := s.procTodo[p];
    assert q[0] in q && Distinct(q);
    assert q == [q[0]] + q[1..];
    ChildlessPlace(s, g, q[0]);
  }

  lemma DropProcTxn(s: State, g: History, p: Pid, y: Xid)
    requires Inv(s, g) && p in s.procTodo && s.procTodo[p] != [] && s.procTodo[p][0] in s.txns && y in s.txns
    ensures TxnOk(DropProc(s, p), g, y)
  {
    hide Inv, Calls, Reaches, Waits;
    DeadProcFacts(s, g, p);
    TxnAt(s, g, y);
    var s', x := DropProc(s, p), s.procTodo[p][0];
    if s.txns[y].fromParent == Some(x) { NoChild(s, y, x); }
    assert forall d :: ChildOf(s', d, y) == ChildOf(s, d, y);
    forall d, z | d in s.threads && Waits(s, g, d, z) ensures Waits(s', g, d, z) { WaitsSame(s, g, s', d, z); }
  }

  lemma DropProcThread(s: State, g: History, p: Pid, b: Tid)
    requires Inv(s, g) && p in s.procTodo && s.procTodo[p] != [] && s.procTodo[p][0] in s.txns && b in s.threads
    ensures ThreadOk(DropProc(s, p), g, b)
  {
    hide Inv, Calls, Reaches, Waits, Link;
    DeadProcFacts(s, g, p);
    ThreadAt(s, g, b);
    var s' := DropProc(s, p);
    forall k | 0 <= k < |g.stk[b]| ensures Link(s', g.stk[b], b, k) {
      LinkTxn(s, g.stk[b], b, k);
      LinkFrame(s, s', g.stk[b], b, k);
    }
    forall d, z | d in s.threads && Waits(s, g, d, z) ensures Waits(s', g, d, z) { WaitsSame(s, g, s', d, z); }
  }

  lemma DropProcInv(s: State, g: History, p: Pid)
    requires Inv(s, g) && p in s.procTodo && s.procTodo[p] != []
    ensures s.procTodo[p][0] in s.txns && Inv(DropProc(s, p), g)
  {
    hide TxnOk, ThreadOk, Distinct;
    DeadProcFacts(s, g, p);
    var s' := DropProc(s, p);
    forall y | y in s'.txns ensures TxnOk(s', g, y) { DropProcTxn(s, g, p, y); }
    forall b | b in s'.threads ensures ThreadOk(s', g, b) { DropProcThread(s, g, p, b); }
    assert forall d, q :: ChildOf(s', d, q) == ChildOf(s, d, q);
    Globals(s, g);
  }

  // ---- Threads and processes appear ----

  function NewThread(s: State, a: Tid, p: Pid): State {
    SetThread(s, a, Thread(p, None, false, false, [], Idle))
  }

  lemma NewThreadInv(s: State, g: History, a: Tid, p: Pid)
    requires Inv(s, g) && a !in s.threads && p in s.procTodo
    ensures Inv(NewThread(s, a, p), DieHistory(g, a))
  {
    hide TxnOk, ThreadOk;
    var s', g' := NewThread(s, a, p), DieHistory(g, a);
    forall y | y in s'.txns ensures TxnOk(s', g', y) { NewThreadTxn(s, g, a, p, y); }
    forall b | b in s'.threads ensures ThreadOk(s', g', b) { NewThreadThread(s, g, a, p, b); }
    assert forall d, q :: ChildOf(s', d, q) == ChildOf(s, d, q);
  }

  lemma NewThreadTxn(s: State, g: History, a: Tid, p: Pid, y: Xid)
    requires Inv(s, g) && a !in s.threads && y in s.txns
    ensures TxnOk(NewThread(s, a, p), DieHistory(g, a), y)
  {
    hide Inv, Calls, Reaches;
    TxnAt(s, g, y);
    var s' := NewThread(s, a, p);
    assert forall d :: ChildOf(s', d, y) == ChildOf(s, d, y);
  }

  lemma NewThreadThread(s: State, g: History, a: Tid, p: Pid, b: Tid)
    requires Inv(s, g) && a !in s.threads && (b in s.threads || b == a)
    ensures ThreadOk(NewThread(s, a, p), DieHistory(g, a), b)
  {
    hide Inv, Reaches;
    if b in s.threads {
      ThreadAt(s, g, b);
      forall k | 0 <= k < |g.stk[b]| ensures Link(NewThread(s, a, p), g.stk[b], b, k) { assert Link(s, g.stk[b], b, k); }
    }
  }

  lemma NewProcInv(s: State, g: History, p: Pid)
    requires Inv(s, g) && p !in s.procTodo
    ensures Inv(s.(procTodo := s.procTodo[p := []]), g)
  {
    hide TxnOk, ThreadOk;
    var s' := s.(procTodo := s.procTodo[p := []]);
    forall y | y in s'.txns ensures TxnOk(s', g, y) { NewProcTxn(s, g, p, y); }
    forall b | b in s'.threads ensures ThreadOk(s', g, b) { NewProcThread(s, g, p, b); }
    assert forall d, q :: ChildOf(s', d, q) == ChildOf(s, d, q);
  }

  lemma NewProcTxn(s: State, g: History, p: Pid, y: Xid)
    requires Inv(s, g) && p !in s.procTodo && y in s.txns
    ensures TxnOk(s.(procTodo := s.procTodo[p := []]), g, y)
  {
    hide Inv, Calls, Reaches;
    TxnAt(s, g, y);
    var s' := s.(procTodo := s.procTodo[p := []]);
    assert forall d :: ChildOf(s', d, y) == ChildOf(s, d, y);
  }

  lemma NewProcThread(s: State, g: History, p: Pid, b: Tid)
    requires Inv(s, g) && p !in s.procTodo && b in s.threads
    ensures ThreadOk(s.(procTodo := s.procTodo[p := []]), g, b)
  {
    hide Inv, Calls, Reaches;
    ThreadAt(s, g, b);
    var s' := s.(procTodo := s.procTodo[p := []]);
    forall k | 0 <= k < |g.stk[b]| ensures Link(s', g.stk[b], b, k) { assert Link(s, g.stk[b], b, k); }
  }

  lemma KillProcInv(s: State, g: History, p: Pid)
    requires Inv(s, g)
    ensures Inv(s.(deadProcs := s.deadProcs + {p}), g)
  {
    hide TxnOk, ThreadOk;
    var s' := s.(deadProcs := s.deadProcs + {p});
    forall y | y in s'.txns ensures TxnOk(s', g, y) { KillProcTxn(s, g, p, y); }
    forall b | b in s'.threads ensures ThreadOk(s', g, b) { KillProcThread(s, g, p, b); }
    assert forall d, q :: ChildOf(s', d, q) == ChildOf(s, d, q);
  }

  lemma KillProcTxn(s: State, g: History, p: Pid, y: Xid)
    requires Inv(s, g) && y in s.txns
    ensures TxnOk(s.(deadProcs := s.deadProcs + {p}), g, y)
  {
    hide Inv, Calls, Reaches;
    TxnAt(s, g, y);
    var s' := s.(deadProcs := s.deadProcs + {p});
    assert forall d :: ChildOf(s', d, y) == ChildOf(s, d, y);
  }

  lemma KillProcThread(s: State, g: History, p: Pid, b: Tid)
    requires Inv(s, g) && b in s.threads
    ensures ThreadOk(s.(deadProcs := s.deadProcs + {p}), g, b)
  {
    hide Inv, Calls, Reaches;
    ThreadAt(s, g, b);
    var s' := s.(deadProcs := s.deadProcs + {p});
    forall k | 0 <= k < |g.stk[b]| ensures Link(s', g.stk[b], b, k) { assert Link(s, g.stk[b], b, k); }
  }
}
