/** The atomic steps of a synchronous call, each with the proof that it keeps the invariant. */
module CallSteps {
  import opened Words
  import opened CallStack

  function SetThread(s: State, a: Tid, th: Thread): State {
    s.(threads := s.threads[a := th])
  }

  // ---- Work items other than calls ----

  /** A thread's todo list changes, but not the call on it. */
  function WithTodo(s: State, a: Tid, todo: seq<Work>): State
    requires a in s.threads
  {
    SetThread(s, a, s.threads[a].(todo := todo))
  }

  predicate SameCall(th: Thread, todo: seq<Work>) {
    && Calls(todo) == Calls(th.todo)
    && (th.stack == None && Calls(todo) != [] && th.todo[0].Call? ==> todo != [] && todo[0].Call?)
    && (th.waiting ==> todo == [])
  }

  lemma WithTodoTxn(s: State, g: History, a: Tid, todo: seq<Work>, x: Xid)
    requires a in s.threads && SameCall(s.threads[a], todo) && x in s.txns && TxnOk(s, g, x)
    ensures TxnOk(WithTodo(s, a, todo), g, x)
  {
    hide Calls, Reaches;
    var s' := WithTodo(s, a, todo);
    if s.txns[x].place == Orphan {
      var c :| ChildOf(s, c, x);
      assert ChildOf(s', c, x);
    }
  }

  lemma WithTodoThread(s: State, g: History, a: Tid, todo: seq<Work>, b: Tid)
    requires a in s.threads && SameCall(s.threads[a], todo) && b in s.threads && ThreadOk(s, g, b)
    ensures ThreadOk(WithTodo(s, a, todo), g, b)
  {
    hide Calls, Reaches;
    var s' := WithTodo(s, a, todo);
    forall k | 0 <= k < |g.stk[b]| ensures Link(s', g.stk[b], b, k) { assert Link(s, g.stk[b], b, k); }
  }

  lemma WithTodoInv(s: State, g: History, a: Tid, todo: seq<Work>)
    requires Inv(s, g) && a in s.threads && SameCall(s.threads[a], todo)
    ensures Inv(WithTodo(s, a, todo), g)
  {
    hide TxnOk, ThreadOk, SameCall;
    var s' := WithTodo(s, a, todo);
    forall x | x in s'.txns ensures TxnOk(s', g, x) { WithTodoTxn(s, g, a, todo, x); }
    forall b | b in s'.threads ensures ThreadOk(s', g, b) { WithTodoThread(s, g, a, todo, b); }
    assert forall c, p :: ChildOf(s', c, p) == ChildOf(s, c, p);
  }

  // ---- Waiting for process work ----

  function WithWaiting(s: State, a: Tid, waiting: bool): State
    requires a in s.threads
  {
    SetThread(s, a, s.threads[a].(waiting := waiting))
  }

  /** binder_available_for_proc_work_ilocked */
  predicate Available(th: Thread) {
    !th.dead && th.stack == None && th.todo == [] && th.busy == Idle
  }

  lemma WithWaitingInv(s: State, g: History, a: Tid, waiting: bool)
    requires Inv(s, g) && a in s.threads && (waiting ==> Available(s.threads[a]))
    ensures Inv(WithWaiting(s, a, waiting), g)
  {
    hide TxnOk, ThreadOk;
    var s' := WithWaiting(s, a, waiting);
    forall x | x in s'.txns ensures TxnOk(s', g, x) { WithWaitingTxn(s, g, a, waiting, x); }
    forall b | b in s'.threads ensures ThreadOk(s', g, b) { WithWaitingThread(s, g, a, waiting, b); }
    assert forall c, p :: ChildOf(s', c, p) == ChildOf(s, c, p);
  }

  lemma WithWaitingTxn(s: State, g: History, a: Tid, waiting: bool, x: Xid)
    requires a in s.threads && x in s.txns && TxnOk(s, g, x)
    ensures TxnOk(WithWaiting(s, a, waiting), g, x)
  {
    hide Calls, Reaches;
    var s' := WithWaiting(s, a, waiting);
    assert forall c :: ChildOf(s', c, x) == ChildOf(s, c, x);
  }

  lemma WithWaitingThread(s: State, g: History, a: Tid, waiting: bool, b: Tid)
    requires a in s.threads && (waiting ==> Available(s.threads[a])) && b in s.threads && ThreadOk(s, g, b)
    ensures ThreadOk(WithWaiting(s, a, waiting), g, b)
  {
    hide Calls, Reaches;
    var s' := WithWaiting(s, a, waiting);
    forall k | 0 <= k < |g.stk[b]| ensures Link(s', g.stk[b], b, k) { assert Link(s, g.stk[b], b, k); }
  }

  // ---- Sending: choosing the target ----

  predicate IsTransaction(w: Work) {
    w.Call? || w.Async? || w.Reply?
  }

  predicate Free(th: Thread) {
    !th.dead && !th.waiting && th.busy == Idle
  }

  /** The two refusals of a synchronous send. */
  predicate SendAllowed(s: State, a: Tid)
    requires a in s.threads
  {
    var th := s.threads[a];
    && (th.todo != [] ==> !IsTransaction(th.todo[0]))
    && (th.stack.Some? ==> th.stack.value in s.txns && s.txns[th.stack.value].toThread == Some(a))
  }

  function WithPlan(s: State, a: Tid, p: Pid): State
    requires a in s.threads
  {
    SetThread(s, a, s.threads[a].(busy := Planning(p, FindCaller(s, s.threads[a].stack, p))))
  }

  /** A stack top that the thread serves, as the code tells: to_thread names the thread. */
  lemma TopServed(s: State, g: History, a: Tid)
    requires Inv(s, g) && a in s.threads && s.threads[a].stack.Some?
    ensures var x := s.threads[a].stack.value;
            && x in s.txns
            && (s.txns[x].toThread == Some(a) <==> s.txns[x].place == Delivered(a))
            && (s.txns[x].toThread != Some(a) ==> s.txns[x].from == Some(a))
            && (s.txns[x].toThread == Some(a) ==> s.txns[x].from != Some(a))
  {
    hide Inv, Waits, StackOk, BusyOk, TodoOk;
    StackOf(s, g, a);
    LinkAt(s, g, a, 0);
    TxnAt(s, g, s.threads[a].stack.value);
  }

  /** A thread that may send has no call waiting on its todo list, at whatever position. */
  lemma NoCallWaiting(s: State, g: History, a: Tid)
    requires Inv(s, g) && Alive(s, a) && SendAllowed(s, a)
    ensures Calls(s.threads[a].todo) == []
  {
    hide Inv, StackOk, BusyOk;
    ThreadAt(s, g, a);
    var th := s.threads[a];
    if Calls(th.todo) != [] {
      var x := Calls(th.todo)[0];
      assert x in Calls(th.todo);
      TxnAt(s, g, x);
      if th.stack.Some? { TopServed(s, g, a); }
    }
  }

  lemma WithPlanTxn(s: State, g: History, a: Tid, p: Pid, x: Xid)
    requires a in s.threads && Free(s.threads[a]) && x in s.txns && TxnOk(s, g, x)
    ensures TxnOk(WithPlan(s, a, p), g, x)
  {
    hide Calls, Reaches, FindCaller;
    var s' := WithPlan(s, a, p);
    assert forall c :: ChildOf(s', c, x) == ChildOf(s, c, x);
  }

  lemma WithPlanThread(s: State, g: History, a: Tid, p: Pid, b: Tid)
    requires Inv(s, g) && a in s.threads && Free(s.threads[a]) && SendAllowed(s, a) && p != s.threads[a].proc && p in s.procTodo
    requires b in s.threads
    ensures ThreadOk(WithPlan(s, a, p), g, b)
  {
    hide Inv, Calls, Reaches, FindCaller;
    ThreadAt(s, g, b);
    var s' := WithPlan(s, a, p);
    forall k | 0 <= k < |g.stk[b]| ensures Link(s', g.stk[b], b, k) { assert Link(s, g.stk[b], b, k); }
    if b == a {
      NoCallWaiting(s, g, a);
      PlanTarget(s, g, a, p);
    }
  }

  lemma PlanTarget(s: State, g: History, a: Tid, p: Pid)
    requires Inv(s, g) && Alive(s, a) && SendAllowed(s, a) && p != s.threads[a].proc
    ensures var st := s.threads[a].stack;
            && (st.Some? ==> s.txns[st.value].place == Delivered(a))
            && (FindCaller(s, st, p).Some? ==> st.Some? && var c := FindCaller(s, st, p).value;
                  Alive(s, c) && s.threads[c].proc == p && s.threads[c].stack.Some? && Waits(s, g, c, st.value))
  {
    hide Inv, Waits;
    if s.threads[a].stack.Some? {
      TopServed(s, g, a);
      if FindCaller(s, s.threads[a].stack, p).Some? { FoundIsWaiting(s, g, a, p); }
    }
  }

  lemma WithPlanInv(s: State, g: History, a: Tid, p: Pid)
    requires Inv(s, g) && a in s.threads && Free(s.threads[a]) && SendAllowed(s, a) && p != s.threads[a].proc && p in s.procTodo
    ensures Inv(WithPlan(s, a, p), g)
  {
    hide TxnOk, ThreadOk, FindCaller, SendAllowed;
    var s' := WithPlan(s, a, p);
    forall x | x in s'.txns ensures TxnOk(s', g, x) { WithPlanTxn(s, g, a, p, x); }
    forall b | b in s'.threads ensures ThreadOk(s', g, b) { WithPlanThread(s, g, a, p, b); }
    assert forall c, q :: ChildOf(s', c, q) == ChildOf(s, c, q);
  }

  // ---- Who counts on a thread's stack ----

  ghost predicate Claims(s: State, a: Tid, y: Xid) {
    && y in s.txns
    && (s.txns[y].place == QueuedAt(a) || s.txns[y].place == Taken(a)
        || (s.txns[y].place.Sending? && s.txns[y].toThread == Some(a)))
  }

  ghost predicate PlansFor(s: State, b: Tid, a: Tid) {
    b in s.threads && s.threads[b].busy.Planning? && s.threads[b].busy.target == Some(a)
  }

  ghost predicate Unclaimed(s: State, a: Tid) {
    (forall y :: !Claims(s, a, y)) && (forall b :: !PlansFor(s, b, a))
  }

  lemma ClaimWaits(s: State, g: History, a: Tid, y: Xid)
    requires Inv(s, g) && Alive(s, a) && Claims(s, a, y)
    ensures y in s.txns && Waits(s, g, a, y) && Childless(s, y)
    ensures s.threads[a].stack == None ==> !s.txns[y].place.Sending?
  {
    hide Inv, Waits;
    TxnAt(s, g, y);
    ChildlessPlace(s, g, y);
  }

  lemma PlanWaits(s: State, g: History, b: Tid, a: Tid)
    requires Inv(s, g) && Alive(s, a) && PlansFor(s, b, a)
    ensures b in s.threads && s.threads[a].stack.Some? && s.threads[b].stack.Some?
    ensures Waits(s, g, a, s.threads[b].stack.value)
    ensures s.threads[b].stack.value in s.txns && Childless(s, s.threads[b].stack.value)
    ensures s.txns[s.threads[b].stack.value].place == Delivered(b) && s.threads[b].proc != s.threads[a].proc
  {
    hide Inv, Waits, StackOk, TodoOk;
    ThreadAt(s, g, b);
    TopServedIsLeaf(s, g, b);
  }

  /** Nobody counts on a thread whose stack top it serves itself. */
  lemma ServingUnclaimed(s: State, g: History, a: Tid)
    requires Inv(s, g) && Alive(s, a) && s.threads[a].stack.Some?
    requires s.threads[a].stack.value in s.txns && s.txns[s.threads[a].stack.value].place == Delivered(a)
    ensures Unclaimed(s, a)
  {
    hide Inv, Claims, PlansFor;
    TopServed(s, g, a);
    forall y ensures !Claims(s, a, y) { if Claims(s, a, y) { ClaimWaits(s, g, a, y); } }
    forall b ensures !PlansFor(s, b, a) { if PlansFor(s, b, a) { PlanWaits(s, g, b, a); } }
  }

  /** Nobody counts on a thread about to send. */
  lemma PlanningUnclaimed(s: State, g: History, a: Tid)
    requires Inv(s, g) && Alive(s, a) && s.threads[a].busy.Planning?
    ensures Unclaimed(s, a)
  {
    hide Inv, StackOk, TodoOk, Waits;
    ThreadAt(s, g, a);
    if s.threads[a].stack.Some? {
      ServingUnclaimed(s, g, a);
    } else {
      forall y ensures !Claims(s, a, y) { if Claims(s, a, y) { TxnAt(s, g, y); } }
      forall b ensures !PlansFor(s, b, a) { if PlansFor(s, b, a) { PlanWaits(s, g, b, a); } }
    }
  }

  /** Nobody counts on a thread whose own call, on top of its stack, is about to be popped. */
  lemma PoppingUnclaimed(s: State, g: History, a: Tid, x: Xid)
    requires Inv(s, g) && Alive(s, a) && s.threads[a].stack == Some(x) && x in s.txns && s.txns[x].from == Some(a)
    requires Childless(s, x) && !Claims(s, a, x) && !s.txns[x].place.Delivered?
    ensures Unclaimed(s, a)
  {
    hide Inv, Claims, PlansFor, Childless;
    forall y ensures !Claims(s, a, y) {
      if Claims(s, a, y) {
        ClaimWaits(s, g, a, y);
        assert Reaches(g.parent, y, x);
        UniqueLeaf(s, g, x, y, x);
      }
    }
    forall b ensures !PlansFor(s, b, a) {
      if PlansFor(s, b, a) {
        PlanWaits(s, g, b, a);
        UniqueLeaf(s, g, x, s.threads[b].stack.value, x);
      }
    }
  }

  // ---- Sending: onto the stack ----

  function WithPush(s: State, a: Tid): State
    requires a in s.threads && s.threads[a].busy.Planning?
  {
    var th, x := s.threads[a], s.nextId;
    var t := Txn(Some(a), th.stack, Some(th.busy.toProc), th.busy.target, None, Sending(a));
    SetThread(s, a, th.(stack := Some(x), todo := th.todo + [Complete(x)], busy := Holding(x)))
      .(txns := s.txns[x := t], nextId := x + 1)
  }

  ghost function PushHistory(s: State, g: History, a: Tid): History
    requires a in s.threads && a in g.stk
  {
    g.(stk := g.stk[a := [s.nextId] + g.stk[a]], parent := g.parent[s.nextId := s.threads[a].stack])
  }

  lemma {:induction false} CallsConcat(a: seq<Work>, b: seq<Work>)
    ensures Calls(a + b) == Calls(a) + Calls(b)
  {
    if a == [] {
      assert a + b == b;
    } else {
      var head := if a[0].Call? then [a[0].x] else [];
      CallsConcat(a[1..], b);
      assert (a + b)[0] == a[0] && (a + b)[1..] == a[1..] + b;
      assert head + (Calls(a[1..]) + Calls(b)) == (head + Calls(a[1..])) + Calls(b);
    }
  }

  lemma CallsOne(w: Work)
    ensures Calls([w]) == if w.Call? then [w.x] else []
  {
    assert [w][1..] == [];
  }

  /** Links of an unchanged stack whose transactions are unchanged. */
  lemma LinkFrame(s: State, s': State, st: seq<Xid>, a: Tid, k: nat)
    requires k < |st| && Link(s, st, a, k)
    requires st[k] in s'.txns
    requires s'.txns[st[k]].from == s.txns[st[k]].from && s'.txns[st[k]].fromParent == s.txns[st[k]].fromParent
    requires s.txns[st[k]].place == Delivered(a) ==> s'.txns[st[k]].toParent == s.txns[st[k]].toParent
    requires s'.txns[st[k]].place == Delivered(a) <==> s.txns[st[k]].place == Delivered(a)
    ensures Link(s', st, a, k)
  {
  }

  /** A link deeper down a stack with a new top. */
  lemma LinkPushed(s: State, st: seq<Xid>, a: Tid, x: Xid, k: nat)
    requires k < |st| && Link(s, st, a, k)
    ensures Link(s, [x] + st, a, k + 1)
  {
    assert ([x] + st)[k + 2..] == st[k + 1..];
  }

  lemma LinkPopped(s: State, st: seq<Xid>, a: Tid, k: nat)
    requires k + 1 < |st| && Link(s, st, a, k + 1)
    ensures Link(s, st[1..], a, k)
  {
    assert st[1..][k + 1..] == st[k + 2..];
  }

  lemma PushFacts(s: State, g: History, a: Tid)
    requires Inv(s, g) && Alive(s, a) && s.threads[a].busy.Planning?
    ensures a in g.stk && s.nextId !in s.txns && s.nextId !in g.parent
    ensures forall y :: y in s.txns ==> y < s.nextId
    ensures forall y :: y in g.stk[a] ==> y < s.nextId
    ensures forall y :: y in g.parent ==> y in PushHistory(s, g, a).parent && PushHistory(s, g, a).parent[y] == g.parent[y]
  {
    hide Inv, PlaceOk, CallerOk, BusyOk, TodoOk;
    ThreadAt(s, g, a);
    Globals(s, g);
    forall y | y in s.txns ensures y < s.nextId { TxnAt(s, g, y); }
    forall y | y in g.stk[a] ensures y < s.nextId {
      var k :| 0 <= k < |g.stk[a]| && g.stk[a][k] == y;
      assert Link(s, g.stk[a], a, k);
    }
  }

  lemma WaitsGrows(s: State, g: History, s': State, g': History, c: Tid, x: Xid)
    requires c in s.threads && c in s'.threads && Waits(s, g, c, x) && s'.threads[c].stack == s.threads[c].stack
    requires forall y :: y in g.parent ==> y in g'.parent && g'.parent[y] == g.parent[y]
    requires forall y :: y in s.txns ==> y in s'.txns && s'.txns[y].from == s.txns[y].from
    ensures Waits(s', g', c, x)
  {
    if s.threads[c].stack.Some? { ReachesGrows(g.parent, g'.parent, x, s.threads[c].stack.value); }
  }

  lemma WithPushOld(s: State, g: History, a: Tid, y: Xid)
    requires Inv(s, g) && Alive(s, a) && s.threads[a].busy.Planning? && y in s.txns && a in g.stk
    ensures TxnOk(WithPush(s, a), PushHistory(s, g, a), y)
  {
    hide Inv, Calls, Reaches, FindCaller, Waits, Unclaimed;
    PushFacts(s, g, a);
    PlanningUnclaimed(s, g, a);
    UnclaimedBy(s, a, y);
    TxnAt(s, g, y);
    var s', g', t := WithPush(s, a), PushHistory(s, g, a), s.txns[y];
    if t.place.QueuedAt? || t.place.Taken? {
      if Waits(s, g, t.place.a, y) { WaitsGrows(s, g, s', g', t.place.a, y); }
    } else if t.place.Sending? && t.toThread.Some? {
      if Alive(s, t.toThread.value) { WaitsGrows(s, g, s', g', t.toThread.value, y); }
    } else if t.place.Delivered? && t.toParent.Some? {
      ReachesGrows(g.parent, g'.parent, y, t.toParent.value);
    } else if t.place == Orphan {
      var c :| ChildOf(s, c, y);
      assert ChildOf(s', c, y);
    }
    CallsConcat(s.threads[a].todo, [Complete(s.nextId)]);
    CallsOne(Complete(s.nextId));
  }

  lemma UnclaimedBy(s: State, a: Tid, y: Xid)
    requires Unclaimed(s, a)
    ensures !Claims(s, a, y)
  {
  }

  lemma UnclaimedTodo(s: State, a: Tid)
    requires a in s.threads && Unclaimed(s, a) && TodoOk(s, a)
    ensures Calls(s.threads[a].todo) == []
  {
    if Calls(s.threads[a].todo) != [] {
      assert Calls(s.threads[a].todo)[0] in Calls(s.threads[a].todo);
      UnclaimedBy(s, a, Calls(s.threads[a].todo)[0]);
    }
  }

  lemma UnplannedBy(s: State, a: Tid, b: Tid)
    requires Unclaimed(s, a)
    ensures !PlansFor(s, b, a)
  {
  }

  lemma WithPushNew(s: State, g: History, a: Tid)
    requires Inv(s, g) && Alive(s, a) && s.threads[a].busy.Planning? && a in g.stk
    ensures TxnOk(WithPush(s, a), PushHistory(s, g, a), s.nextId)
  {
    hide Inv, Calls, Reaches, FindCaller, Waits;
    PushFacts(s, g, a);
    ThreadAt(s, g, a);
    var s', g', th, x := WithPush(s, a), PushHistory(s, g, a), s.threads[a], s.nextId;
    assert x in g'.stk[a];
    if th.busy.target.Some? && Alive(s, th.busy.target.value) {
      var c, q := th.busy.target.value, th.stack.value;
      WaitsGrows(s, g, s', g', c, q);
      WaitsThrough(s', g', c, q, x);
    }
  }

  lemma WaitsThrough(s: State, g: History, c: Tid, q: Xid, x: Xid)
    requires c in s.threads && Waits(s, g, c, q) && x in g.parent && g.parent[x] == Some(q) && q < x
    ensures Waits(s, g, c, x)
  {
  }

  lemma WithPushThread(s: State, g: History, a: Tid, b: Tid)
    requires Inv(s, g) && Alive(s, a) && s.threads[a].busy.Planning? && a in g.stk && b in s.threads
    ensures ThreadOk(WithPush(s, a), PushHistory(s, g, a), b)
  {
    hide Inv, Calls, Reaches, FindCaller, Waits, Unclaimed, Link;
    PushFacts(s, g, a);
    PlanningUnclaimed(s, g, a);
    UnplannedBy(s, a, b);
    ThreadAt(s, g, b);
    var s', g', x := WithPush(s, a), PushHistory(s, g, a), s.nextId;
    forall k | 0 <= k < |g.stk[b]| ensures Link(s', g.stk[b], b, k) {
      LinkTxn(s, g.stk[b], b, k);
      LinkFrame(s, s', g.stk[b], b, k);
    }
    if b == a {
      CallsConcat(s.threads[a].todo, [Complete(x)]);
      CallsOne(Complete(x));
      NewTop(s', g.stk[a], a, x);
      forall k | 0 <= k < |g'.stk[a]| ensures Link(s', g'.stk[a], a, k) {
        if k > 0 { LinkPushed(s', g.stk[a], a, x, k - 1); }
      }
    } else if s.threads[b].busy.Planning? && s.threads[b].busy.target.Some? {
      var c := s.threads[b].busy.target.value;
      assert c != a by { assert !PlansFor(s, b, a); }
      if Alive(s, c) { WaitsGrows(s, g, s', g', c, s.threads[b].stack.value); }
    }
  }

  lemma LinkTxn(s: State, st: seq<Xid>, a: Tid, k: nat)
    requires k < |st| && Link(s, st, a, k)
    ensures st[k] in s.txns
  {
  }

  lemma NewTop(s: State, st: seq<Xid>, a: Tid, x: Xid)
    requires x in s.txns && s.txns[x].from == Some(a) && s.txns[x].place == Sending(a) && s.txns[x].fromParent == Head(st)
    ensures Link(s, [x] + st, a, 0)
  {
    assert ([x] + st)[1..] == st;
  }

  lemma WithPushInv(s: State, g: History, a: Tid)
    requires Inv(s, g) && Alive(s, a) && s.threads[a].busy.Planning?
    ensures a in g.stk && Inv(WithPush(s, a), PushHistory(s, g, a))
  {
    hide TxnOk, ThreadOk, FindCaller;
    PushFacts(s, g, a);
    var s', g', x := WithPush(s, a), PushHistory(s, g, a), s.nextId;
    forall y | y in s'.txns ensures TxnOk(s', g', y) {
      if y == x { WithPushNew(s, g, a); } else { WithPushOld(s, g, a, y); }
    }
    forall b | b in s'.threads ensures ThreadOk(s', g', b) { WithPushThread(s, g, a, b); }
    PushGlobals(s, g, a);
  }

  lemma PushGlobals(s: State, g: History, a: Tid)
    requires Inv(s, g) && Alive(s, a) && s.threads[a].busy.Planning? && a in g.stk
    ensures OneChild(WithPush(s, a)) && ProcTodoOk(WithPush(s, a)) && HistoryOk(WithPush(s, a), PushHistory(s, g, a))
  {
    hide Inv, StackOk, TodoOk, Waits;
    PushFacts(s, g, a);
    Globals(s, g);
    ThreadAt(s, g, a);
    var s', x := WithPush(s, a), s.nextId;
    if s.threads[a].stack.Some? { TopServedIsLeaf(s, g, a); }
    forall c, d, q | ChildOf(s', c, q) && ChildOf(s', d, q) ensures c == d {
      if c != x { assert ChildOf(s, c, q); }
      if d != x { assert ChildOf(s, d, q); }
    }
  }

  // ---- Giving up a send before the push ----

  function WithIdle(s: State, a: Tid): State
    requires a in s.threads
  {
    SetThread(s, a, s.threads[a].(busy := Idle))
  }

  lemma WithIdleInv(s: State, g: History, a: Tid)
    requires Inv(s, g) && a in s.threads && s.threads[a].busy.Planning?
    ensures Inv(WithIdle(s, a), g)
  {
    hide TxnOk, ThreadOk;
    var s' := WithIdle(s, a);
    forall x | x in s'.txns ensures TxnOk(s', g, x) { WithIdleTxn(s, g, a, x); }
    forall b | b in s'.threads ensures ThreadOk(s', g, b) { WithIdleThread(s, g, a, b); }
    assert forall c, q :: ChildOf(s', c, q) == ChildOf(s, c, q);
  }

  lemma WithIdleTxn(s: State, g: History, a: Tid, x: Xid)
    requires a in s.threads && s.threads[a].busy.Planning? && x in s.txns && TxnOk(s, g, x)
    ensures TxnOk(WithIdle(s, a), g, x)
  {
    hide Calls, Reaches;
    var s' := WithIdle(s, a);
    assert forall c :: ChildOf(s', c, x) == ChildOf(s, c, x);
  }

  lemma WithIdleThread(s: State, g: History, a: Tid, b: Tid)
    requires a in s.threads && b in s.threads && ThreadOk(s, g, b)
    ensures ThreadOk(WithIdle(s, a), g, b)
  {
    hide Calls, Reaches;
    var s' := WithIdle(s, a);
    forall k | 0 <= k < |g.stk[b]| ensures Link(s', g.stk[b], b, k) { assert Link(s, g.stk[b], b, k); }
  }

  // ---- A transaction in a thread's hands is given up ----

  function WithPlace(s: State, x: Xid, place: Place): State
    requires x in s.txns
  {
    s.(txns := s.txns[x := s.txns[x].(place := place)])
  }

  function Unhold(s: State, a: Tid): State
    requires a in s.threads && s.threads[a].busy.Holding? && s.threads[a].busy.x in s.txns
  {
    WithPlace(WithIdle(s, a), s.threads[a].busy.x, Failing)
  }

  lemma HoldingFacts(s: State, g: History, a: Tid)
    requires Inv(s, g) && a in s.threads && s.threads[a].busy.Holding?
    ensures Alive(s, a) && s.threads[a].busy.x in s.txns && Childless(s, s.threads[a].busy.x)
    ensures s.txns[s.threads[a].busy.x].place in {Sending(a), Taken(a), Replying(a)}
  {
    hide Inv, StackOk, TodoOk;
    ThreadAt(s, g, a);
    ChildlessPlace(s, g, s.threads[a].busy.x);
  }

  lemma UnholdTxn(s: State, g: History, a: Tid, y: Xid)
    requires Inv(s, g) && a in s.threads && s.threads[a].busy.Holding? && s.threads[a].busy.x in s.txns && y in s.txns
    ensures TxnOk(Unhold(s, a), g, y)
  {
    hide Inv, Calls, Reaches, Waits;
    HoldingFacts(s, g, a);
    TxnAt(s, g, y);
    var s', x := Unhold(s, a), s.threads[a].busy.x;
    if s.txns[y].fromParent == Some(x) { NoChild(s, y, x); }
    assert forall c :: ChildOf(s', c, y) == ChildOf(s, c, y);
    forall c, z | c in s.threads && Waits(s, g, c, z) ensures Waits(s', g, c, z) { WaitsSame(s, g, s', c, z); }
  }

  lemma WaitsSame(s: State, g: History, s': State, c: Tid, x: Xid)
    requires c in s.threads && c in s'.threads && Waits(s, g, c, x) && s'.threads[c].stack == s.threads[c].stack
    requires s.threads[c].stack.Some? && s.threads[c].stack.value in s.txns ==>
               s.threads[c].stack.value in s'.txns && s'.txns[s.threads[c].stack.value].from == s.txns[s.threads[c].stack.value].from
    ensures Waits(s', g, c, x)
  {
  }

  lemma UnholdThread(s: State, g: History, a: Tid, b: Tid)
    requires Inv(s, g) && a in s.threads && s.threads[a].busy.Holding? && s.threads[a].busy.x in s.txns && b in s.threads
    ensures ThreadOk(Unhold(s, a), g, b)
  {
    hide Inv, Calls, Reaches, Waits, Link;
    HoldingFacts(s, g, a);
    ThreadAt(s, g, b);
    var s', x := Unhold(s, a), s.threads[a].busy.x;
    forall k | 0 <= k < |g.stk[b]| ensures Link(s', g.stk[b], b, k) {
      LinkTxn(s, g.stk[b], b, k);
      LinkFrame(s, s', g.stk[b], b, k);
    }
    forall c, z | c in s.threads && Waits(s, g, c, z) ensures Waits(s', g, c, z) { WaitsSame(s, g, s', c, z); }
  }

  lemma UnholdInv(s: State, g: History, a: Tid)
    requires Inv(s, g) && a in s.threads && s.threads[a].busy.Holding?
    ensures s.threads[a].busy.x in s.txns && Inv(Unhold(s, a), g)
  {
    hide TxnOk, ThreadOk;
    HoldingFacts(s, g, a);
    var s' := Unhold(s, a);
    forall y | y in s'.txns ensures TxnOk(s', g, y) { UnholdTxn(s, g, a, y); }
    forall b | b in s'.threads ensures ThreadOk(s', g, b) { UnholdThread(s, g, a, b); }
    assert forall c, q :: ChildOf(s', c, q) == ChildOf(s, c, q);
  }

  // ---- A transaction ends while its sender lives: it is popped off the sender's stack ----

  function WithoutTop(s: State, x: Xid): State
    requires x in s.txns && s.txns[x].from.Some? && s.txns[x].from.value in s.threads
  {
    var a := s.txns[x].from.value;
    SetThread(s, a, s.threads[a].(stack := s.txns[x].fromParent)).(txns := s.txns - {x})
  }

  ghost function EndHistory(g: History, x: Xid, o: Outcome): History {
    g.(ended := g.ended[x := o])
  }

  ghost function PopHistory(g: History, a: Tid, x: Xid, o: Outcome): History
    requires a in g.stk && g.stk[a] != []
  {
    EndHistory(g, x, o).(stk := g.stk[a := g.stk[a][1..]])
  }

  /** A failing transaction is about to leave: where it is on stacks, and that nobody counts on it. */
  lemma FailingFacts(s: State, g: History, x: Xid)
    requires Inv(s, g) && x in s.txns && s.txns[x].place == Failing
    ensures Childless(s, x)
    ensures s.txns[x].from.Some? ==>
              var a := s.txns[x].from.value;
              && Alive(s, a) && s.threads[a].stack == Some(x) && a in g.stk && g.stk[a] != [] && g.stk[a][0] == x && Unclaimed(s, a)
    ensures forall b, k :: b in s.threads && b in g.stk && 0 <= k < |g.stk[b]| && g.stk[b][k] == x ==> s.txns[x].from == Some(b) && k == 0
  {
    hide Inv, Claims, PlansFor, Unclaimed;
    ChildlessPlace(s, g, x);
    if s.txns[x].from.Some? {
      TopOfCaller(s, g, x);
      var a := s.txns[x].from.value;
      StackOf(s, g, a);
      assert !Claims(s, a, x) by { NotClaiming(s, a, x); }
      PoppingUnclaimed(s, g, a, x);
    }
    forall b, k | b in s.threads && b in g.stk && 0 <= k < |g.stk[b]| && g.stk[b][k] == x ensures s.txns[x].from == Some(b) && k == 0 {
      OnStack(s, g, b, k);
    }
  }

  lemma NotClaiming(s: State, a: Tid, x: Xid)
    requires x in s.txns && s.txns[x].place == Failing
    ensures !Claims(s, a, x)
  {
  }

  lemma OnStack(s: State, g: History, b: Tid, k: nat)
    requires Inv(s, g) && b in s.threads && b in g.stk && k < |g.stk[b]|
    requires g.stk[b][k] in s.txns && s.txns[g.stk[b][k]].place == Failing && Childless(s, g.stk[b][k])
    ensures s.txns[g.stk[b][k]].from == Some(b) && k == 0
  {
    hide Inv, Childless;
    LinkAt(s, g, b, k);
    TopOfCaller(s, g, g.stk[b][k]);
    StackOf(s, g, b);
    ThreadAt(s, g, b);
  }

  lemma WithoutTopTxn(s: State, g: History, x: Xid, o: Outcome, y: Xid)
    requires Inv(s, g) && x in s.txns && s.txns[x].place == Failing && s.txns[x].from.Some? && s.txns[x].from.value in s.threads
    requires s.txns[x].from.value in g.stk && g.stk[s.txns[x].from.value] != []
    requires y in s.txns && y != x
    ensures TxnOk(WithoutTop(s, x), PopHistory(g, s.txns[x].from.value, x, o), y)
  {
    hide Inv, Calls, Reaches, Waits, Unclaimed;
    FailingFacts(s, g, x);
    TxnAt(s, g, y);
    var a, s' := s.txns[x].from.value, WithoutTop(s, x);
    var g' := PopHistory(g, a, x, o);
    UnclaimedBy(s, a, y);
    if s.txns[y].fromParent == Some(x) { NoChild(s, y, x); }
    if s.txns[y].place == Orphan {
      var c :| ChildOf(s, c, y);
      if c == x { TxnAt(s, g, x); }
      assert ChildOf(s', c, y);
    }
    ToParentStays(s, g, x, y);
    forall c | c in s.threads && c != a && Waits(s, g, c, y) ensures Waits(s', g', c, y) { WaitsStays(s, g, x, s', g', c, y); }
  }

  /** Nobody waits for a transaction without calls, or was delivered because of it. */
  lemma ToParentStays(s: State, g: History, x: Xid, y: Xid)
    requires Inv(s, g) && x in s.txns && Childless(s, x) && y in s.txns && y != x
    ensures s.txns[y].place.Delivered? ==> s.txns[y].toParent != Some(x)
  {
    hide Inv;
    TxnAt(s, g, y);
    if s.txns[y].place.Delivered? && s.txns[y].toParent == Some(x) {
      var c := ReachesChild(s, g, y, x);
      NoChild(s, c, x);
    }
  }

  lemma WaitsStays(s: State, g: History, x: Xid, s': State, g': History, c: Tid, y: Xid)
    requires Inv(s, g) && x in s.txns && Childless(s, x) && y in s.txns && y != x && c in s.threads && Waits(s, g, c, y)
    requires c in s'.threads && s'.threads[c].stack == s.threads[c].stack && g'.parent == g.parent
    requires forall z :: z in s.txns && z != x ==> z in s'.txns && s'.txns[z].from == s.txns[z].from
    ensures Waits(s', g', c, y)
  {
    hide Inv;
    if s.threads[c].stack == Some(x) {
      var d := ReachesChild(s, g, y, x);
      NoChild(s, d, x);
    }
  }

  lemma WithoutTopThread(s: State, g: History, x: Xid, o: Outcome, b: Tid)
    requires Inv(s, g) && x in s.txns && s.txns[x].place == Failing && s.txns[x].from.Some? && s.txns[x].from.value in s.threads
    requires s.txns[x].from.value in g.stk && g.stk[s.txns[x].from.value] != []
    requires b in s.threads
    ensures ThreadOk(WithoutTop(s, x), PopHistory(g, s.txns[x].from.value, x, o), b)
  {
    hide Inv, Calls, Reaches, Waits, Unclaimed, Link;
    FailingFacts(s, g, x);
    ThreadAt(s, g, b);
    var a, s' := s.txns[x].from.value, WithoutTop(s, x);
    var g' := PopHistory(g, a, x, o);
    UnplannedBy(s, a, b);
    forall k | 0 <= k < |g'.stk[b]| ensures Link(s', g'.stk[b], b, k) {
      var j := if b == a then k + 1 else k;
      LinkTxn(s, g.stk[b], b, j);
      assert g.stk[b][j] != x;
      LinkFrame(s, s', g.stk[b], b, j);
      if b == a { LinkPopped(s', g.stk[a], a, k); }
    }
    if b == a {
      PoppedHead(s, g.stk[a], a, x);
      UnclaimedTodo(s, a);
    }
    if s.threads[b].busy.Planning? && s.threads[b].busy.target.Some? {
      var c := s.threads[b].busy.target.value;
      assert c != a by { assert !PlansFor(s, b, a); }
      if Alive(s, c) { WaitsStays(s, g, x, s', g', c, s.threads[b].stack.value); }
    }
  }

  lemma PoppedHead(s: State, st: seq<Xid>, a: Tid, x: Xid)
    requires st != [] && st[0] == x && Link(s, st, a, 0) && s.txns[x].place == Failing
    ensures s.txns[x].fromParent == Head(st[1..])
  {
  }

  lemma WithoutTopInv(s: State, g: History, x: Xid, o: Outcome)
    requires Inv(s, g) && x in s.txns && s.txns[x].place == Failing && s.txns[x].from.Some?
    ensures var a := s.txns[x].from.value;
            && a in s.threads && a in g.stk && g.stk[a] != []
            && Inv(WithoutTop(s, x), PopHistory(g, a, x, o))
  {
    hide TxnOk, ThreadOk, Unclaimed;
    FailingFacts(s, g, x);
    var a := s.txns[x].from.value;
    var s', g' := WithoutTop(s, x), PopHistory(g, a, x, o);
    forall y | y in s'.txns ensures TxnOk(s', g', y) { WithoutTopTxn(s, g, x, o, y); }
    forall b | b in s'.threads ensures ThreadOk(s', g', b) { WithoutTopThread(s, g, x, o, b); }
    Globals(s, g);
    assert forall c, q :: ChildOf(s', c, q) ==> ChildOf(s, c, q);
    TxnAt(s, g, x);
  }

  // ---- A transaction ends after its sender died: its parent is next to fail ----

  function WithoutOrphan(s: State, x: Xid): State
    requires x in s.txns
  {
    var p := s.txns[x].fromParent;
    var txns := s.txns - {x};
    s.(txns := if p.Some? && p.value in txns then txns[p.value := txns[p.value].(place := Failing)] else txns)
  }

  lemma WithoutOrphanTxn(s: State, g: History, x: Xid, o: Outcome, y: Xid)
    requires Inv(s, g) && x in s.txns && s.txns[x].place == Failing && s.txns[x].from == None
    requires y in s.txns && y != x
    ensures TxnOk(WithoutOrphan(s, x), EndHistory(g, x, o), y)
  {
    hide Inv, Calls, Reaches, Waits, Unclaimed;
    FailingFacts(s, g, x);
    TxnAt(s, g, y);
    TxnAt(s, g, x);
    Globals(s, g);
    var s', g' := WithoutOrphan(s, x), EndHistory(g, x, o);
    if s.txns[y].fromParent == Some(x) { NoChild(s, y, x); }
    Siblings(s, x, y);
    if s.txns[y].place == Orphan && s.txns[x].fromParent != Some(y) {
      var c :| ChildOf(s, c, y);
      assert ChildOf(s', c, y);
    }
    ToParentStays(s, g, x, y);
    forall c | c in s.threads && Waits(s, g, c, y) ensures Waits(s', g', c, y) { WaitsStays(s, g, x, s', g', c, y); }
  }

  lemma WithoutOrphanThread(s: State, g: History, x: Xid, o: Outcome, b: Tid)
    requires Inv(s, g) && x in s.txns && s.txns[x].place == Failing && s.txns[x].from == None
    requires b in s.threads
    ensures ThreadOk(WithoutOrphan(s, x), EndHistory(g, x, o), b)
  {
    hide Inv, Calls, Reaches, Waits, Unclaimed, Link;
    FailingFacts(s, g, x);
    TxnAt(s, g, x);
    ThreadAt(s, g, b);
    var s', g' := WithoutOrphan(s, x), EndHistory(g, x, o);
    forall k | 0 <= k < |g.stk[b]| ensures Link(s', g.stk[b], b, k) {
      LinkTxn(s, g.stk[b], b, k);
      assert g.stk[b][k] != x;
      LinkFrame(s, s', g.stk[b], b, k);
    }
    if s.threads[b].busy.Planning? && s.threads[b].busy.target.Some? {
      var c := s.threads[b].busy.target.value;
      if Alive(s, c) { WaitsStays(s, g, x, s', g', c, s.threads[b].stack.value); }
    }
  }

  lemma WithoutOrphanInv(s: State, g: History, x: Xid, o: Outcome)
    requires Inv(s, g) && x in s.txns && s.txns[x].place == Failing && s.txns[x].from == None
    ensures Inv(WithoutOrphan(s, x), EndHistory(g, x, o))
    ensures s.txns[x].fromParent.Some? ==> s.txns[x].fromParent.value < x && s.txns[x].fromParent.value in WithoutOrphan(s, x).txns
  {
    hide TxnOk, ThreadOk, Unclaimed;
    FailingFacts(s, g, x);
    TxnAt(s, g, x);
    var s', g' := WithoutOrphan(s, x), EndHistory(g, x, o);
    forall y | y in s'.txns ensures TxnOk(s', g', y) { WithoutOrphanTxn(s, g, x, o, y); }
    forall b | b in s'.threads ensures ThreadOk(s', g', b) { WithoutOrphanThread(s, g, x, o, b); }
    Globals(s, g);
    assert forall c, q :: ChildOf(s', c, q) ==> ChildOf(s, c, q);
    if s.txns[x].fromParent.Some? { ParentWasOrphan(s, g, x); }
  }

  lemma Siblings(s: State, x: Xid, y: Xid)
    requires OneChild(s) && x in s.txns && y in s.txns && x != y
    ensures s.txns[x].fromParent.Some? ==> s.txns[y].fromParent != s.txns[x].fromParent
  {
    if s.txns[x].fromParent.Some? {
      var p := s.txns[x].fromParent.value;
      assert ChildOf(s, x, p);
      assert ChildOf(s, y, p) <==> s.txns[y].fromParent == Some(p);
    }
  }

  lemma ParentWasOrphan(s: State, g: History, x: Xid)
    requires Inv(s, g) && x in s.txns && s.txns[x].from == None && s.txns[x].fromParent.Some?
    ensures s.txns[x].fromParent.value in s.txns && s.txns[s.txns[x].fromParent.value].place == Orphan
  {
    TxnAt(s, g, x);
  }

  // ---- Sending: into a queue ----

  predicate IsSending(s: State, a: Tid) {
    && a in s.threads && s.threads[a].busy.Holding? && s.threads[a].busy.x in s.txns
    && s.txns[s.threads[a].busy.x].place == Sending(a)
  }

  /** Thread c is the one the call was aimed at, or was picked because it waits for process work. */
  ghost predicate MayServe(s: State, x: Xid, c: Tid)
    requires x in s.txns
  {
    && Alive(s, c)
    && if s.txns[x].toThread.Some? then s.txns[x].toThread == Some(c)
       else s.threads[c].waiting && Some(s.threads[c].proc) == s.txns[x].toProc
  }

  function QueueAt(s: State, a: Tid, c: Tid): State
    requires a in s.threads && c in s.threads && s.threads[a].busy.Holding? && s.threads[a].busy.x in s.txns
  {
    var x, s1 := s.threads[a].busy.x, WithIdle(s, a);
    WithPlace(SetThread(s1, c, s1.threads[c].(todo := s1.threads[c].todo + [Call(x)], waiting := false)), x, QueuedAt(c))
  }

  function QueueProc(s: State, a: Tid, p: Pid): State
    requires a in s.threads && s.threads[a].busy.Holding? && s.threads[a].busy.x in s.txns && p in s.procTodo
  {
    var x := s.threads[a].busy.x;
    WithPlace(WithIdle(s, a), x, QueuedProc(p)).(procTodo := s.procTodo[p := s.procTodo[p] + [x]])
  }

  /** The thread to serve the call has no other call queued, is not the sender and is not itself about to send. */
  lemma ServerFacts(s: State, g: History, a: Tid, c: Tid)
    requires Inv(s, g) && IsSending(s, a) && MayServe(s, s.threads[a].busy.x, c)
    ensures var x := s.threads[a].busy.x;
            && Alive(s, c) && c != a && Calls(s.threads[c].todo) == [] && Waits(s, g, c, x) && s.txns[x].toProc == Some(s.threads[c].proc)
            && (s.threads[c].stack == None ==> s.threads[c].todo == [])
            && (s.threads[c].busy == Idle || (s.threads[c].busy.Holding? && s.threads[c].busy.x in s.txns
                                              && !s.txns[s.threads[c].busy.x].place.Taken?))
    ensures s.txns[s.threads[a].busy.x].toThread.Some? ==> !s.threads[c].waiting
  {
    hide Inv, StackOk;
    var x := s.threads[a].busy.x;
    TxnAt(s, g, x);
    ThreadAt(s, g, c);
    ChildlessPlace(s, g, x);
    if s.txns[x].toThread.Some? {
      var u := s.threads[c].stack.value;
      assert Reaches(g.parent, x, u);
      if Calls(s.threads[c].todo) != [] {
        var y := Calls(s.threads[c].todo)[0];
        assert y in Calls(s.threads[c].todo);
        OtherClaim(s, g, c, y, x, u);
      }
      if s.threads[c].busy.Holding? && s.txns[s.threads[c].busy.x].place == Taken(c) {
        OtherClaim(s, g, c, s.threads[c].busy.x, x, u);
      }
      if s.threads[c].busy.Planning? {
        PlanningUnclaimed(s, g, c);
        UnclaimedBy(s, c, x);
      }
    }
  }

  /** Two claims on a waiting thread are one. */
  lemma OtherClaim(s: State, g: History, c: Tid, y: Xid, x: Xid, u: Xid)
    requires Inv(s, g) && Alive(s, c) && Claims(s, c, y) && x in s.txns && Childless(s, x)
    requires s.threads[c].stack == Some(u) && Reaches(g.parent, x, u)
    ensures x == y
  {
    hide Inv, Claims;
    ClaimWaits(s, g, c, y);
    assert Reaches(g.parent, y, u);
    UniqueLeaf(s, g, x, y, u);
  }

  lemma QueueAtTxn(s: State, g: History, a: Tid, c: Tid, y: Xid)
    requires Inv(s, g) && IsSending(s, a) && MayServe(s, s.threads[a].busy.x, c) && y in s.txns
    ensures TxnOk(QueueAt(s, a, c), g, y)
  {
    hide Inv, Calls, Reaches, Waits, MayServe;
    ServerFacts(s, g, a, c);
    HoldingFacts(s, g, a);
    TxnAt(s, g, y);
    var s', x := QueueAt(s, a, c), s.threads[a].busy.x;
    AddCall(s.threads[c].todo, x);
    if s.txns[y].fromParent == Some(x) { NoChild(s, y, x); }
    assert forall d :: ChildOf(s', d, y) == ChildOf(s, d, y);
    forall d, z | d in s.threads && Waits(s, g, d, z) ensures Waits(s', g, d, z) { WaitsSame(s, g, s', d, z); }
  }

  lemma AddCall(todo: seq<Work>, x: Xid)
    ensures Calls(todo + [Call(x)]) == Calls(todo) + [x] && x in Calls(todo + [Call(x)])
    ensures forall y :: y in Calls(todo) ==> y in Calls(todo + [Call(x)])
  {
    CallsConcat(todo, [Call(x)]);
    CallsOne(Call(x));
  }

  lemma QueueAtThread(s: State, g: History, a: Tid, c: Tid, b: Tid)
    requires Inv(s, g) && IsSending(s, a) && MayServe(s, s.threads[a].busy.x, c) && b in s.threads
    ensures ThreadOk(QueueAt(s, a, c), g, b)
  {
    hide Inv, Calls, Reaches, Waits, Link, MayServe;
    ServerFacts(s, g, a, c);
    HoldingFacts(s, g, a);
    ThreadAt(s, g, b);
    var s', x := QueueAt(s, a, c), s.threads[a].busy.x;
    AddCall(s.threads[c].todo, x);
    forall k | 0 <= k < |g.stk[b]| ensures Link(s', g.stk[b], b, k) {
      LinkTxn(s, g.stk[b], b, k);
      LinkFrame(s, s', g.stk[b], b, k);
    }
    forall d, z | d in s.threads && Waits(s, g, d, z) ensures Waits(s', g, d, z) { WaitsSame(s, g, s', d, z); }
  }

  lemma QueueAtInv(s: State, g: History, a: Tid, c: Tid)
    requires Inv(s, g) && IsSending(s, a) && MayServe(s, s.threads[a].busy.x, c)
    ensures Inv(QueueAt(s, a, c), g)
  {
    hide TxnOk, ThreadOk, MayServe;
    ServerFacts(s, g, a, c);
    var s' := QueueAt(s, a, c);
    forall y | y in s'.txns ensures TxnOk(s', g, y) { QueueAtTxn(s, g, a, c, y); }
    forall b | b in s'.threads ensures ThreadOk(s', g, b) { QueueAtThread(s, g, a, c, b); }
    assert forall d, q :: ChildOf(s', d, q) == ChildOf(s, d, q);
  }

  lemma QueueProcTxn(s: State, g: History, a: Tid, p: Pid, y: Xid)
    requires Inv(s, g) && IsSending(s, a) && s.txns[s.threads[a].busy.x].toProc == Some(p) && p in s.procTodo && y in s.txns
    ensures TxnOk(QueueProc(s, a, p), g, y)
  {
    hide Inv, Calls, Reaches, Waits;
    HoldingFacts(s, g, a);
    TxnAt(s, g, y);
    var s', x := QueueProc(s, a, p), s.threads[a].busy.x;
    if s.txns[y].fromParent == Some(x) { NoChild(s, y, x); }
    assert forall d :: ChildOf(s', d, y) == ChildOf(s, d, y);
    forall d, z | d in s.threads && Waits(s, g, d, z) ensures Waits(s', g, d, z) { WaitsSame(s, g, s', d, z); }
  }

  lemma QueueProcThread(s: State, g: History, a: Tid, p: Pid, b: Tid)
    requires Inv(s, g) && IsSending(s, a) && p in s.procTodo && b in s.threads
    ensures ThreadOk(QueueProc(s, a, p), g, b)
  {
    hide Inv, Calls, Reaches, Waits, Link;
    HoldingFacts(s, g, a);
    ThreadAt(s, g, b);
    var s', x := QueueProc(s, a, p), s.threads[a].busy.x;
    forall k | 0 <= k < |g.stk[b]| ensures Link(s', g.stk[b], b, k) {
      LinkTxn(s, g.stk[b], b, k);
      LinkFrame(s, s', g.stk[b], b, k);
    }
    forall d, z | d in s.threads && Waits(s, g, d, z) ensures Waits(s', g, d, z) { WaitsSame(s, g, s', d, z); }
  }

  lemma QueueProcInv(s: State, g: History, a: Tid, p: Pid)
    requires Inv(s, g) && IsSending(s, a) && s.txns[s.threads[a].busy.x].toProc == Some(p) && p in s.procTodo
    ensures Inv(QueueProc(s, a, p), g)
  {
    hide TxnOk, ThreadOk;
    HoldingFacts(s, g, a);
    var s', x := QueueProc(s, a, p), s.threads[a].busy.x;
    forall y | y in s'.txns ensures TxnOk(s', g, y) { QueueProcTxn(s, g, a, p, y); }
    forall b | b in s'.threads ensures ThreadOk(s', g, b) { QueueProcThread(s, g, a, p, b); }
    assert forall d, q :: ChildOf(s', d, q) == ChildOf(s, d, q);
    Globals(s, g);
    assert x !in s.procTodo[p];
  }
}
