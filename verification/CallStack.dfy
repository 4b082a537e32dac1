/** Synchronous calls: who called whom, which transaction sits on which thread's stack, and the
    invariant that every step of the driver keeps. Each region under a lock is one atomic step. */
module CallStack {
  import opened Words

  type Tid = nat   // threads
  type Pid = nat   // processes
  type Xid = nat   // transactions, in order of creation

  /** Where a transaction is. */
  datatype Place =
    | Sending(a: Tid)         // pushed on the sender's stack, not queued yet
    | QueuedAt(a: Tid)        // on a thread's todo list
    | QueuedProc(p: Pid)      // on a process's todo list
    | Taken(a: Tid)           // off the todo list, being handed to a thread
    | Delivered(a: Tid)       // on the stack of the thread that serves it
    | Replying(a: Tid)        // off that stack, its reply under construction
    | Failing                 // a failed reply is on its way to the sender
    | Orphan                  // its server died below a call of its own

  datatype Txn = Txn(
    from: Option<Tid>,
    fromParent: Option<Xid>,
    toProc: Option<Pid>,
    toThread: Option<Tid>,
    toParent: Option<Xid>,
    place: Place)

  /** Work items; one-way calls are only met here as items on a list. */
  datatype Work = Call(x: Xid) | Async(id: nat) | Reply(x: Xid) | ReplyError | ReturnError | Complete(x: Xid)

  /** What a thread inside the driver is in the middle of. */
  datatype Busy = Idle | Planning(toProc: Pid, target: Option<Tid>) | Holding(x: Xid)

  datatype Thread = Thread(proc: Pid, stack: Option<Xid>, dead: bool, waiting: bool, todo: seq<Work>, busy: Busy)

  datatype State = State(
    threads: map<Tid, Thread>,
    txns: map<Xid, Txn>,
    procTodo: map<Pid, seq<Xid>>,
    deadProcs: set<Pid>,
    nextId: Xid)

  /** How a call ended. */
  datatype Outcome = Replied | ErrorToCaller | CallerGone | NotSent

  /** Bookkeeping for the proofs only: each thread's stack as a sequence, the caller chain of every
      transaction ever created, and how the finished ones ended. */
  datatype History = History(stk: map<Tid, seq<Xid>>, parent: map<Xid, Option<Xid>>, ended: map<Xid, Outcome>)

  predicate Alive(s: State, a: Tid) {
    a in s.threads && !s.threads[a].dead
  }

  function Calls(todo: seq<Work>): seq<Xid> {
    if todo == [] then [] else (if todo[0].Call? then [todo[0].x] else []) + Calls(todo[1..])
  }

  /** Following from_parent from y leads to x. */
  ghost predicate Reaches(parent: map<Xid, Option<Xid>>, y: Xid, x: Xid)
    decreases y
  {
    y == x || (y in parent && parent[y].Some? && parent[y].value < y && Reaches(parent, parent[y].value, x))
  }

  ghost predicate ChildOf(s: State, c: Xid, p: Xid) {
    c in s.txns && s.txns[c].fromParent == Some(p)
  }

  ghost predicate Childless(s: State, p: Xid) {
    forall c :: !ChildOf(s, c, p)
  }

  // ---- Invariant, one transaction at a time ----

  /** A call made while serving another: the other one is still being served by the caller, or both lost it. */
  ghost predicate ParentOk(s: State, g: History, x: Xid)
    requires x in s.txns
  {
    var t := s.txns[x];
    && x < s.nextId
    && x in g.parent && g.parent[x] == t.fromParent
    && (t.fromParent.Some? ==>
          var p := t.fromParent.value;
          p < x && p in s.txns && s.txns[p].place == if t.from.Some? then Delivered(t.from.value) else Orphan)
  }

  ghost predicate CallerOk(s: State, g: History, x: Xid)
    requires x in s.txns
  {
    var t := s.txns[x];
    t.from.Some? ==>
      && Alive(s, t.from.value) && t.from.value in g.stk && x in g.stk[t.from.value]
      && t.toProc != Some(s.threads[t.from.value].proc)
  }

  /** Whoever is to serve x next is free, or waits at the top of its stack for a call that led to x. */
  ghost predicate Waits(s: State, g: History, c: Tid, x: Xid)
    requires c in s.threads
  {
    s.threads[c].stack.Some? ==>
      var u := s.threads[c].stack.value;
      u in s.txns && s.txns[u].from == Some(c) && Reaches(g.parent, x, u)
  }

  ghost predicate PlaceOk(s: State, g: History, x: Xid)
    requires x in s.txns
  {
    var t := s.txns[x];
    match t.place
    case Sending(a) =>
      && Alive(s, a) && t.from == Some(a) && s.threads[a].busy == Holding(x) && t.toProc.Some? && t.toProc.value in s.procTodo
      && (t.toThread.Some? ==> var c := t.toThread.value;
            && c in s.threads && t.toProc == Some(s.threads[c].proc)
            && (Alive(s, c) ==> s.threads[c].stack.Some? && Waits(s, g, c, x)))
    case QueuedAt(c) =>
      && c in s.threads && x in Calls(s.threads[c].todo) && t.toProc == Some(s.threads[c].proc)
      && (Alive(s, c) ==> Waits(s, g, c, x))
    case QueuedProc(p) =>
      p in s.procTodo && x in s.procTodo[p] && t.toProc == Some(p)
    case Taken(c) =>
      Alive(s, c) && s.threads[c].busy == Holding(x) && t.toProc == Some(s.threads[c].proc) && Waits(s, g, c, x)
    case Delivered(c) =>
      && Alive(s, c) && c in g.stk && x in g.stk[c] && t.toThread == Some(c) && t.toProc == Some(s.threads[c].proc)
      && (t.toParent.Some? ==> var u := t.toParent.value;
            u in s.txns && s.txns[u].from == Some(c) && Reaches(g.parent, x, u))
    case Replying(a) =>
      Alive(s, a) && s.threads[a].busy == Holding(x)
    case Failing => true
    case Orphan => !Childless(s, x)
  }

  /** A caller is never recorded as its own server. */
  ghost predicate TargetOk(s: State, x: Xid)
    requires x in s.txns
  {
    s.txns[x].from.Some? ==> s.txns[x].toThread != s.txns[x].from
  }

  // ---- Invariant, one thread at a time ----

  function Next(s: State, a: Tid, x: Xid): Option<Xid>
    requires x in s.txns
  {
    if s.txns[x].place == Delivered(a) then s.txns[x].toParent else s.txns[x].fromParent
  }

  function Head(st: seq<Xid>): Option<Xid> {
    if st == [] then None else Some(st[0])
  }

  ghost predicate Link(s: State, st: seq<Xid>, a: Tid, k: nat)
    requires k < |st|
  {
    && st[k] in s.txns
    && (s.txns[st[k]].from == Some(a) || s.txns[st[k]].place == Delivered(a))
    && Next(s, a, st[k]) == Head(st[k + 1..])
  }

  ghost predicate Descending(st: seq<Xid>) {
    forall i, j :: 0 <= i < j < |st| ==> st[i] > st[j]
  }

  /** The transaction stack of a thread is the chain that its pointers spell out, newest first. */
  ghost predicate StackOk(s: State, g: History, a: Tid)
    requires a in s.threads
  {
    && a in g.stk
    && s.threads[a].stack == Head(g.stk[a])
    && Descending(g.stk[a])
    && (forall k :: 0 <= k < |g.stk[a]| ==> Link(s, g.stk[a], a, k))
    && (s.threads[a].dead ==> g.stk[a] == [])
  }

  /** Queued calls are where they say they are; there is at most one per thread, and if the thread's
      stack is empty it is the first thing the thread will see. */
  ghost predicate TodoOk(s: State, a: Tid)
    requires a in s.threads
  {
    var th := s.threads[a];
    && (forall x :: x in Calls(th.todo) ==> x in s.txns && s.txns[x].place == QueuedAt(a))
    && |Calls(th.todo)| <= 1
    && (!th.dead && th.stack == None && Calls(th.todo) != [] ==> th.todo[0].Call?)
    && (th.waiting ==> !th.dead && th.stack == None && th.todo == [] && th.busy == Idle)
  }

  ghost predicate BusyOk(s: State, g: History, a: Tid)
    requires a in s.threads
  {
    var th := s.threads[a];
    && (th.dead ==> th.busy == Idle)
    && match th.busy
       case Idle => true
       case Holding(x) =>
         && x in s.txns && s.txns[x].place in {Sending(a), Taken(a), Replying(a)}
         && (s.txns[x].place == Taken(a) ==> Calls(th.todo) == [])
       case Planning(p, target) =>
         && Calls(th.todo) == [] && p != th.proc && p in s.procTodo
         && (th.stack.Some? ==> th.stack.value in s.txns && s.txns[th.stack.value].place == Delivered(a))
         && (target.Some? ==>
               && target.value in s.threads && s.threads[target.value].proc == p && th.stack.Some?
               && (Alive(s, target.value) ==>
                     s.threads[target.value].stack.Some? && Waits(s, g, target.value, th.stack.value)))
  }

  ghost predicate OneChild(s: State) {
    forall c, d, p :: ChildOf(s, c, p) && ChildOf(s, d, p) ==> c == d
  }

  ghost predicate ProcTodoOk(s: State) {
    && (forall a :: a in s.threads ==> s.threads[a].proc in s.procTodo)
    && (forall p, x :: p in s.procTodo && x in s.procTodo[p] ==> x in s.txns && s.txns[x].place == QueuedProc(p))
    && (forall p :: p in s.procTodo ==> Distinct(s.procTodo[p]))
  }

  /** A call has ended, or is under way, but never both. */
  ghost predicate HistoryOk(s: State, g: History) {
    && (forall x :: x in g.ended ==> x < s.nextId && x !in s.txns)
    && (forall x: Xid :: x in g.parent <==> x < s.nextId)
    && (forall x: Xid :: x < s.nextId ==> x in s.txns || x in g.ended)
  }

  ghost predicate TxnOk(s: State, g: History, x: Xid)
    requires x in s.txns
  {
    ParentOk(s, g, x) && CallerOk(s, g, x) && PlaceOk(s, g, x) && TargetOk(s, x)
  }

  ghost predicate ThreadOk(s: State, g: History, a: Tid)
    requires a in s.threads
  {
    StackOk(s, g, a) && TodoOk(s, a) && BusyOk(s, g, a)
  }

  ghost predicate Inv(s: State, g: History) {
    && (forall x :: x in s.txns ==> TxnOk(s, g, x))
    && (forall a :: a in s.threads ==> ThreadOk(s, g, a))
    && OneChild(s) && ProcTodoOk(s) && HistoryOk(s, g)
  }

  // ---- Consequences ----

  lemma TxnAt(s: State, g: History, x: Xid)
    requires Inv(s, g) && x in s.txns
    ensures ParentOk(s, g, x) && CallerOk(s, g, x) && PlaceOk(s, g, x) && TargetOk(s, x)
  {
    assert TxnOk(s, g, x);
  }

  lemma ThreadAt(s: State, g: History, a: Tid)
    requires Inv(s, g) && a in s.threads
    ensures StackOk(s, g, a) && TodoOk(s, a) && BusyOk(s, g, a)
  {
    assert ThreadOk(s, g, a);
  }

  lemma Globals(s: State, g: History)
    requires Inv(s, g)
    ensures OneChild(s) && ProcTodoOk(s) && HistoryOk(s, g)
  {
  }

  /** Over any run: every call ever made is under way or has ended, and never both. */
  lemma LiveOrEnded(s: State, g: History, x: Xid)
    requires Inv(s, g) && x < s.nextId
    ensures x in s.txns <==> x !in g.ended
  {
    Globals(s, g);
  }

  lemma {:induction false} ReachesTrans(parent: map<Xid, Option<Xid>>, a: Xid, b: Xid, c: Xid)
    requires Reaches(parent, a, b) && Reaches(parent, b, c)
    ensures Reaches(parent, a, c)
    decreases a
  {
    if a != b { ReachesTrans(parent, parent[a].value, b, c); }
  }

  lemma {:induction false} ReachesDown(parent: map<Xid, Option<Xid>>, a: Xid, b: Xid)
    requires Reaches(parent, a, b)
    ensures b <= a
    decreases a
  {
    if a != b { ReachesDown(parent, parent[a].value, b); }
  }

  /** More history does not change who leads to whom. */
  lemma {:induction false} ReachesGrows(parent: map<Xid, Option<Xid>>, parent': map<Xid, Option<Xid>>, a: Xid, b: Xid)
    requires Reaches(parent, a, b) && forall x :: x in parent ==> x in parent' && parent'[x] == parent[x]
    ensures Reaches(parent', a, b)
    decreases a
  {
    if a != b { ReachesGrows(parent, parent', parent[a].value, b); }
  }

  /** As long as a call lives, so do the calls it was made for; the last one before x is x's child. */
  lemma {:induction false} ReachesChild(s: State, g: History, y: Xid, x: Xid) returns (c: Xid)
    requires Inv(s, g) && y in s.txns && Reaches(g.parent, y, x) && y != x
    ensures ChildOf(s, c, x) && Reaches(g.parent, y, c) && x < c <= y && x in s.txns
    decreases y
  {
    hide Inv, Waits;
    TxnAt(s, g, y);
    var p := g.parent[y].value;
    if p == x {
      c := y;
    } else {
      c := ReachesChild(s, g, p, x);
    }
  }

  lemma ChildReaches(s: State, g: History, c: Xid, p: Xid)
    requires Inv(s, g) && ChildOf(s, c, p)
    ensures Reaches(g.parent, c, p) && p < c
  {
    TxnAt(s, g, c);
    hide Inv, CallerOk, PlaceOk;
    assert Reaches(g.parent, p, p);
  }

  lemma NoChild(s: State, c: Xid, p: Xid)
    requires Childless(s, p)
    ensures !ChildOf(s, c, p)
  {
  }

  /** Below any call there is a single chain of calls, so whoever is at its end is reached from all of it. */
  lemma {:induction false} LeafReaches(s: State, g: History, leaf: Xid, z: Xid, x: Xid)
    requires Inv(s, g) && leaf in s.txns && z in s.txns && Childless(s, leaf)
    requires Reaches(g.parent, leaf, x) && Reaches(g.parent, z, x)
    ensures Reaches(g.parent, leaf, z)
    decreases z - x
  {
    hide Inv;
    Globals(s, g);
    ReachesDown(g.parent, z, x);
    if z != x {
      var c := ReachesChild(s, g, z, x);
      if leaf == x {
        NoChild(s, c, leaf);
      } else {
        var d := ReachesChild(s, g, leaf, x);
        assert c == d;
        LeafReaches(s, g, leaf, z, c);
      }
    }
  }

  lemma UniqueLeaf(s: State, g: History, a: Xid, b: Xid, x: Xid)
    requires Inv(s, g) && a in s.txns && b in s.txns && Childless(s, a) && Childless(s, b)
    requires Reaches(g.parent, a, x) && Reaches(g.parent, b, x)
    ensures a == b
  {
    hide Inv;
    LeafReaches(s, g, a, b, x);
    if a != b {
      var c := ReachesChild(s, g, a, b);
      NoChild(s, c, b);
    }
  }

  /** A call that is neither being served nor orphaned has made no calls. */
  lemma ChildlessPlace(s: State, g: History, x: Xid)
    requires Inv(s, g) && x in s.txns && !s.txns[x].place.Delivered? && s.txns[x].place != Orphan
    ensures Childless(s, x)
  {
    hide Inv, CallerOk, PlaceOk;
    forall c ensures !ChildOf(s, c, x) {
      if ChildOf(s, c, x) { TxnAt(s, g, c); }
    }
  }

  lemma LinkAt(s: State, g: History, a: Tid, k: nat)
    requires Inv(s, g) && a in s.threads && a in g.stk && k < |g.stk[a]|
    ensures Link(s, g.stk[a], a, k)
  {
    ThreadAt(s, g, a);
  }

  /** One step down a stack follows the caller chain. */
  lemma LinkReaches(s: State, g: History, a: Tid, k: nat)
    requires Inv(s, g) && a in s.threads && a in g.stk && k + 1 < |g.stk[a]|
    ensures g.stk[a][k] in s.txns && g.stk[a][k + 1] in s.txns
    ensures Reaches(g.parent, g.stk[a][k], g.stk[a][k + 1]) && g.stk[a][k] > g.stk[a][k + 1]
    ensures s.txns[g.stk[a][k]].place != Delivered(a) ==> ChildOf(s, g.stk[a][k], g.stk[a][k + 1])
    ensures s.txns[g.stk[a][k]].place == Delivered(a) ==> s.txns[g.stk[a][k + 1]].from == Some(a)
  {
    hide Inv;
    ThreadAt(s, g, a);
    LinkAt(s, g, a, k);
    LinkAt(s, g, a, k + 1);
    var x, y := g.stk[a][k], g.stk[a][k + 1];
    assert g.stk[a][k + 1..][0] == y;
    TxnAt(s, g, x);
    if s.txns[x].place != Delivered(a) { ChildReaches(s, g, x, y); }
  }

  lemma {:induction false} StackReaches(s: State, g: History, a: Tid, i: nat, j: nat)
    requires Inv(s, g) && a in s.threads && a in g.stk && i <= j < |g.stk[a]|
    ensures Reaches(g.parent, g.stk[a][i], g.stk[a][j])
    decreases j - i
  {
    hide Inv;
    if i < j {
      LinkReaches(s, g, a, i);
      StackReaches(s, g, a, i + 1, j);
      ReachesTrans(g.parent, g.stk[a][i], g.stk[a][i + 1], g.stk[a][j]);
    }
  }

  lemma StackOf(s: State, g: History, a: Tid)
    requires Inv(s, g) && a in s.threads
    ensures a in g.stk && s.threads[a].stack == Head(g.stk[a])
    ensures s.threads[a].dead ==> s.threads[a].stack == None && g.stk[a] == []
  {
    ThreadAt(s, g, a);
  }

  /** A transaction without calls of its own, whose sender lives, is on top of the sender's stack:
      what both BUG_ONs of binder_pop_transaction_ilocked test. */
  lemma TopOfCaller(s: State, g: History, x: Xid)
    requires Inv(s, g) && x in s.txns && s.txns[x].from.Some? && Childless(s, x)
    ensures Alive(s, s.txns[x].from.value) && s.threads[s.txns[x].from.value].stack == Some(x)
  {
    hide Inv, PlaceOk, StackOk, BusyOk, TodoOk;
    TxnAt(s, g, x);
    var a := s.txns[x].from.value;
    StackOf(s, g, a);
    var k :| 0 <= k < |g.stk[a]| && g.stk[a][k] == x;
    if k > 0 {
      StackReaches(s, g, a, k - 1, k);
      LinkReaches(s, g, a, k - 1);
      var c := ReachesChild(s, g, g.stk[a][k - 1], x);
    }
  }

  /** What a thread is serving, on top of its stack, has no calls pending. */
  lemma TopServedIsLeaf(s: State, g: History, a: Tid)
    requires Inv(s, g) && a in s.threads && s.threads[a].stack.Some?
    ensures s.threads[a].stack.value in s.txns
    ensures s.txns[s.threads[a].stack.value].place == Delivered(a) ==> Childless(s, s.threads[a].stack.value)
  {
    hide Inv, PlaceOk, BusyOk, TodoOk;
    StackOf(s, g, a);
    LinkAt(s, g, a, 0);
    var x := s.threads[a].stack.value;
    if s.txns[x].place == Delivered(a) {
      forall c ensures !ChildOf(s, c, x) {
        if ChildOf(s, c, x) {
          TxnAt(s, g, c);
          NotBelowTop(s, g, a, c);
        }
      }
    }
  }

  lemma NotBelowTop(s: State, g: History, a: Tid, c: Xid)
    requires Inv(s, g) && a in s.threads && c in s.txns && s.threads[a].stack.Some?
    requires a in g.stk && c in g.stk[a]
    ensures c <= s.threads[a].stack.value
  {
    ThreadAt(s, g, a);
  }

  // ---- Finding the thread to call back into ----

  /** The nearest caller up the chain that is a living thread of process p. */
  function FindCaller(s: State, x: Option<Xid>, p: Pid): Option<Tid>
    decreases if x.Some? then x.value + 1 else 0
  {
    if x == None || x.value !in s.txns then None
    else
      var t := s.txns[x.value];
      if t.from.Some? && t.from.value in s.threads && s.threads[t.from.value].proc == p then t.from
      else if t.fromParent.Some? && t.fromParent.value < x.value then FindCaller(s, t.fromParent, p)
      else None
  }

  /** w is a call up the chain from x that a thread of process p made. */
  ghost predicate CallerIn(s: State, g: History, x: Xid, w: Xid, p: Pid) {
    && w in s.txns && Reaches(g.parent, x, w)
    && s.txns[w].from.Some? && s.txns[w].from.value in s.threads && s.threads[s.txns[w].from.value].proc == p
  }

  /** The sender of the newest of them, or nobody if there is none. */
  ghost predicate Nearest(s: State, g: History, x: Xid, p: Pid, target: Option<Tid>) {
    && (target.Some? <==> exists w :: CallerIn(s, g, x, w, p))
    && (target.Some? ==> exists w :: CallerIn(s, g, x, w, p) && s.txns[w].from == target && forall v: Xid :: CallerIn(s, g, x, v, p) ==> v <= w)
  }

  lemma {:induction false} FindCallerNearest(s: State, g: History, x: Xid, p: Pid)
    requires Inv(s, g) && x in s.txns
    ensures Nearest(s, g, x, p, FindCaller(s, Some(x), p))
    decreases x
  {
    hide Inv;
    TxnAt(s, g, x);
    hide PlaceOk, CallerOk;
    var t := s.txns[x];
    forall w: Xid ensures CallerIn(s, g, x, w, p) ==> w <= x && (w == x || (t.fromParent.Some? && CallerIn(s, g, t.fromParent.value, w, p))) {
      if CallerIn(s, g, x, w, p) { ReachesDown(g.parent, x, w); }
    }
    if t.from.Some? && t.from.value in s.threads && s.threads[t.from.value].proc == p {
      assert CallerIn(s, g, x, x, p);
    } else if t.fromParent.Some? {
      FindCallerNearest(s, g, t.fromParent.value, p);
      forall w: Xid ensures CallerIn(s, g, x, w, p) <==> CallerIn(s, g, t.fromParent.value, w, p) { }
    }
  }

  /** The call w through which FindCaller found its thread; nothing nearer comes from process p. */
  lemma {:induction false} FoundVia(s: State, g: History, x: Xid, p: Pid) returns (w: Xid)
    requires Inv(s, g) && x in s.txns && FindCaller(s, Some(x), p).Some?
    ensures w in s.txns && s.txns[w].from == FindCaller(s, Some(x), p) && Reaches(g.parent, x, w)
    ensures Alive(s, s.txns[w].from.value) && s.threads[s.txns[w].from.value].proc == p
    ensures forall z :: z in s.txns && Reaches(g.parent, x, z) && z > w && s.txns[z].from.Some? && s.txns[z].from.value in s.threads ==>
              s.threads[s.txns[z].from.value].proc != p
    decreases x
  {
    hide Inv, PlaceOk;
    TxnAt(s, g, x);
    var t := s.txns[x];
    if t.from.Some? && t.from.value in s.threads && s.threads[t.from.value].proc == p {
      w := x;
      forall z: Xid | Reaches(g.parent, x, z) ensures z <= x { ReachesDown(g.parent, x, z); }
    } else {
      w := FoundVia(s, g, t.fromParent.value, p);
    }
  }

  /** A thread found that way waits, on top of its stack, for a call that led to x. */
  lemma FoundIsWaiting(s: State, g: History, a: Tid, p: Pid)
    requires Inv(s, g) && Alive(s, a) && s.threads[a].stack.Some? && p != s.threads[a].proc
    requires s.threads[a].stack.value in s.txns && s.txns[s.threads[a].stack.value].place == Delivered(a)
    requires FindCaller(s, s.threads[a].stack, p).Some?
    ensures var c := FindCaller(s, s.threads[a].stack, p).value;
            Alive(s, c) && s.threads[c].proc == p && s.threads[c].stack.Some? && Waits(s, g, c, s.threads[a].stack.value)
  {
    hide Inv, PlaceOk, StackOk, BusyOk, TodoOk, FindCaller;
    var x := s.threads[a].stack.value;
    TopServedIsLeaf(s, g, a);
    var w := FoundVia(s, g, x, p);
    var c := s.txns[w].from.value;
    StackOf(s, g, c);
    TxnAt(s, g, w);
    var k :| 0 <= k < |g.stk[c]| && g.stk[c][k] == w;
    var y := g.stk[c][0];
    LinkAt(s, g, c, 0);
    StackReaches(s, g, c, 0, k);
    if s.txns[y].place == Delivered(c) {
      TopServedIsLeaf(s, g, c);
      UniqueLeaf(s, g, x, y, w);
    } else {
      LeafReaches(s, g, x, y, w);
      ReachesDown(g.parent, y, w);
    }
  }
}
