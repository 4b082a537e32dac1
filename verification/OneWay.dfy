/** One-way calls to the nodes of one process: at most one per node is outstanding, the others wait in the node's async_todo. */
module OneWay {
  import opened Words

  type Xid = nat
  type Nid = nat
  type Tid = nat

  /** Where a one-way call is between the driver's acceptance and the free of its buffer. */
  datatype Place =
    | Waiting                       // in the node's async_todo
    | Queued(thread: Option<Tid>)   // on the todo list of a thread, or of the process
    | Reading                       // off the list, being handed to user space
    | Delivered                     // user space may free the buffer
    | Lost                          // the transaction is gone, the buffer is not, and nobody may free it

  datatype Call = Call(node: Nid, place: Place)

  datatype Node = Node(hasAsync: bool, asyncTodo: seq<Xid>)

  datatype State = State(dead: bool, nodes: map<Nid, Node>, calls: map<Xid, Call>, procTodo: seq<Xid>, threadTodo: map<Tid, seq<Xid>>)

  /** For the proofs: the calls accepted for a node in the order they were sent, and those that
      stopped waiting, in the order they did. */
  datatype Log = Log(sent: map<Nid, seq<Xid>>, started: map<Nid, seq<Xid>>)

  /** x occupies its node: it is out of async_todo and its buffer is not freed. */
  predicate Current(s: State, n: Nid, x: Xid) {
    x in s.calls && s.calls[x].node == n && s.calls[x].place != Waiting
  }

  ghost predicate NodeOk(s: State, g: Log, n: Nid)
    requires n in s.nodes
  {
    var nd := s.nodes[n];
    && n in g.sent && n in g.started
    && (nd.hasAsync <==> exists x :: Current(s, n, x))
    && (forall x, y :: Current(s, n, x) && Current(s, n, y) ==> x == y)
    && (nd.asyncTodo != [] ==> nd.hasAsync)
    && Distinct(nd.asyncTodo)
    && (forall x :: x in nd.asyncTodo <==> x in s.calls && s.calls[x] == Call(n, Waiting))
    && g.sent[n] == g.started[n] + nd.asyncTodo
    && (forall x :: Current(s, n, x) ==> g.started[n] != [] && g.started[n][|g.started[n]| - 1] == x)
  }

  ghost predicate ListsOk(s: State) {
    && Distinct(s.procTodo)
    && (forall x :: x in s.procTodo <==> x in s.calls && s.calls[x].place == Queued(None))
    && (forall t :: t in s.threadTodo ==> Distinct(s.threadTodo[t]))
    && (forall t, x :: t in s.threadTodo ==> (x in s.threadTodo[t] <==> x in s.calls && s.calls[x].place == Queued(Some(t))))
  }

  ghost predicate Inv(s: State, g: Log) {
    && (forall x :: x in s.calls ==> s.calls[x].node in s.nodes)
    && (forall n :: n in s.nodes ==> NodeOk(s, g, n))
    && ListsOk(s)
  }

  // ---- Steps ----

  function SetPlace(s: State, x: Xid, place: Place): State
    requires x in s.calls
  {
    s.(calls := s.calls[x := s.calls[x].(place := place)])
  }

  /** Queued on a thread's list or on the process's. */
  function Enqueue(s: State, x: Xid, thread: Option<Tid>): State
    requires x in s.calls && (thread.Some? ==> thread.value in s.threadTodo)
  {
    var s1 := SetPlace(s, x, Queued(thread));
    match thread
    case Some(t) => s1.(threadTodo := s.threadTodo[t := s.threadTodo[t] + [x]])
    case None => s1.(procTodo := s.procTodo + [x])
  }

  /** binder_proc_transaction for a one-way call to node n; `pick` is the waiting thread that would be chosen.
      The mark on the node is set before the process is found to be dead. */
  function Send(s: State, x: Xid, n: Nid, pick: Option<Tid>): State
    requires n in s.nodes && x !in s.calls && (pick.Some? ==> pick.value in s.threadTodo)
  {
    var pending := s.nodes[n].hasAsync;
    var s1 := s.(nodes := s.nodes[n := s.nodes[n].(hasAsync := true)]);
    if s.dead then s1
    else if pending then
      s1.(nodes := s1.nodes[n := s1.nodes[n].(asyncTodo := s1.nodes[n].asyncTodo + [x])], calls := s.calls[x := Call(n, Waiting)])
    else Enqueue(s1.(calls := s.calls[x := Call(n, Reading)]), x, pick)
  }

  ghost function SendLog(s: State, g: Log, x: Xid, n: Nid): Log
    requires n in s.nodes && n in g.sent && n in g.started
  {
    if s.dead then g
    else g.(sent := g.sent[n := g.sent[n] + [x]],
            started := if s.nodes[n].hasAsync then g.started else g.started[n := g.started[n] + [x]])
  }

  /** A call leaves the head of a list. */
  function Dequeue(s: State, thread: Option<Tid>): State
    requires match thread case Some(t) => t in s.threadTodo && s.threadTodo[t] != [] && s.threadTodo[t][0] in s.calls
                          case None => s.procTodo != [] && s.procTodo[0] in s.calls
  {
    match thread
    case Some(t) => SetPlace(s, s.threadTodo[t][0], Reading).(threadTodo := s.threadTodo[t := s.threadTodo[t][1..]])
    case None => SetPlace(s, s.procTodo[0], Reading).(procTodo := s.procTodo[1..])
  }

  /** binder_free_buf on the buffer of x: the next waiting call takes its place. */
  function FreeBuf(s: State, x: Xid): State
    requires x in s.calls && s.calls[x].node in s.nodes
    requires s.nodes[s.calls[x].node].asyncTodo != [] ==> s.nodes[s.calls[x].node].asyncTodo[0] in s.calls - {x}
  {
    var n := s.calls[x].node;
    var q := s.nodes[n].asyncTodo;
    var s1 := s.(calls := s.calls - {x});
    if q == [] then s1.(nodes := s.nodes[n := Node(false, [])])
    else Enqueue(s1.(nodes := s.nodes[n := Node(s.nodes[n].hasAsync, q[1..])]), q[0], None)
  }

  ghost function FreeLog(s: State, g: Log, x: Xid): Log
    requires x in s.calls && s.calls[x].node in s.nodes && s.calls[x].node in g.started
  {
    var n := s.calls[x].node;
    if s.nodes[n].asyncTodo == [] then g else g.(started := g.started[n := g.started[n] + [s.nodes[n].asyncTodo[0]]])
  }

  // ---- Keeping the invariant ----

  lemma NodeAt(s: State, g: Log, n: Nid)
    requires Inv(s, g) && n in s.nodes
    ensures NodeOk(s, g, n)
  {
  }

  lemma CallAt(s: State, g: Log, x: Xid)
    requires Inv(s, g) && x in s.calls
    ensures s.calls[x].node in s.nodes && NodeOk(s, g, s.calls[x].node)
  {
  }

  /** A node that a step does not concern. */
  lemma NodeFrame(s: State, g: Log, s': State, g': Log, n: Nid)
    requires n in s.nodes && NodeOk(s, g, n) && n in s'.nodes && s'.nodes[n] == s.nodes[n]
    requires n in g'.sent && n in g'.started && g'.sent[n] == g.sent[n] && g'.started[n] == g.started[n]
    requires forall x :: Current(s', n, x) <==> Current(s, n, x)
    requires forall x :: (x in s'.calls && s'.calls[x] == Call(n, Waiting)) <==> (x in s.calls && s.calls[x] == Call(n, Waiting))
    ensures NodeOk(s', g', n)
  {
  }

  /** Moving a current call between places other than Waiting concerns no node. */
  lemma MoveNode(s: State, g: Log, s': State, x: Xid, place: Place, n: Nid)
    requires n in s.nodes && NodeOk(s, g, n) && x in s.calls && s.calls[x].place != Waiting && place != Waiting
    requires s'.nodes == s.nodes && s'.calls == s.calls[x := s.calls[x].(place := place)]
    ensures NodeOk(s', g, n)
  {
    NodeFrame(s, g, s', g, n);
  }

  lemma DistinctAppend(q: seq<Xid>, x: Xid)
    requires Distinct(q) && x !in q
    ensures Distinct(q + [x])
  {
  }

  lemma DistinctTail(q: seq<Xid>)
    requires Distinct(q) && q != []
    ensures Distinct(q[1..]) && q[0] !in q[1..] && forall x :: x in q[1..] <==> x in q && x != q[0]
  {
    assert q == [q[0]] + q[1..];
  }

  lemma EnqueueLists(s: State, x: Xid, thread: Option<Tid>)
    requires ListsOk(s) && x in s.calls && (thread.Some? ==> thread.value in s.threadTodo)
    requires !s.calls[x].place.Queued?
    ensures ListsOk(Enqueue(s, x, thread))
  {
    match thread
    case Some(t) => DistinctAppend(s.threadTodo[t], x);
    case None => DistinctAppend(s.procTodo, x);
  }

  lemma DequeueLists(s: State, thread: Option<Tid>)
    requires ListsOk(s)
    requires match thread case Some(t) => t in s.threadTodo && s.threadTodo[t] != [] && s.threadTodo[t][0] in s.calls
                          case None => s.procTodo != [] && s.procTodo[0] in s.calls
    ensures ListsOk(Dequeue(s, thread))
  {
    match thread
    case Some(t) => DistinctTail(s.threadTodo[t]);
    case None => DistinctTail(s.procTodo);
  }

  /** The call that finds the node busy goes to the end of its waiting calls. */
  lemma WaitsHere(s: State, g: Log, x: Xid, n: Nid, s': State, g': Log)
    requires n in s.nodes && NodeOk(s, g, n) && x !in s.calls && s.nodes[n].hasAsync
    requires s'.nodes == s.nodes[n := Node(true, s.nodes[n].asyncTodo + [x])] && s'.calls == s.calls[x := Call(n, Waiting)]
    requires g' == g.(sent := g.sent[n := g.sent[n] + [x]])
    ensures NodeOk(s', g', n)
  {
    assert forall y :: Current(s', n, y) <==> Current(s, n, y);
    DistinctAppend(s.nodes[n].asyncTodo, x);
    assert g.sent[n] + [x] == g.started[n] + (s.nodes[n].asyncTodo + [x]);
  }

  lemma SendWaits(s: State, g: Log, x: Xid, n: Nid, pick: Option<Tid>, m: Nid)
    requires Inv(s, g) && n in s.nodes && x !in s.calls && !s.dead && s.nodes[n].hasAsync && m in s.nodes
    requires (pick.Some? ==> pick.value in s.threadTodo) && n in g.sent && n in g.started
    ensures NodeOk(Send(s, x, n, pick), SendLog(s, g, x, n), m)
  {
    NodeAt(s, g, m);
    hide NodeOk, Inv;
    if m == n { WaitsHere(s, g, x, n, Send(s, x, n, pick), SendLog(s, g, x, n)); } else { SendOther(s, g, x, n, pick, m); }
  }

  /** The call that finds the node idle becomes its current one. */
  lemma StartsHere(s: State, g: Log, x: Xid, n: Nid, s': State, g': Log)
    requires n in s.nodes && NodeOk(s, g, n) && x !in s.calls && !s.nodes[n].hasAsync
    requires s'.nodes == s.nodes[n := s.nodes[n].(hasAsync := true)] && x in s'.calls && !s'.calls[x].place.Waiting?
    requires s'.calls == s.calls[x := s'.calls[x]] && s'.calls[x].node == n
    requires g' == g.(sent := g.sent[n := g.sent[n] + [x]], started := g.started[n := g.started[n] + [x]])
    ensures NodeOk(s', g', n)
  {
    assert Current(s', n, x);
    assert forall y :: Current(s', n, y) && y != x ==> Current(s, n, y);
    assert g.sent[n] == g.started[n];
  }

  lemma SendStarts(s: State, g: Log, x: Xid, n: Nid, pick: Option<Tid>, m: Nid)
    requires Inv(s, g) && n in s.nodes && x !in s.calls && !s.dead && !s.nodes[n].hasAsync && m in s.nodes
    requires (pick.Some? ==> pick.value in s.threadTodo) && n in g.sent && n in g.started
    ensures NodeOk(Send(s, x, n, pick), SendLog(s, g, x, n), m)
  {
    NodeAt(s, g, m);
    var s', g' := Send(s, x, n, pick), SendLog(s, g, x, n);
    hide NodeOk, Inv;
    if m == n { StartsHere(s, g, x, n, s', g'); } else { SendOther(s, g, x, n, pick, m); }
  }

  lemma SendOther(s: State, g: Log, x: Xid, n: Nid, pick: Option<Tid>, m: Nid)
    requires n in s.nodes && n in g.sent && n in g.started && x !in s.calls && (pick.Some? ==> pick.value in s.threadTodo)
    requires m in s.nodes && m != n && NodeOk(s, g, m) && m in g.sent && m in g.started
    ensures NodeOk(Send(s, x, n, pick), SendLog(s, g, x, n), m)
  {
    hide NodeOk;
    var s' := Send(s, x, n, pick);
    assert forall y :: Current(s', m, y) <==> Current(s, m, y);
    NodeFrame(s, g, s', SendLog(s, g, x, n), m);
  }

  lemma SendInv(s: State, g: Log, x: Xid, n: Nid, pick: Option<Tid>)
    requires Inv(s, g) && n in s.nodes && x !in s.calls && !s.dead && (pick.Some? ==> pick.value in s.threadTodo)
    ensures n in g.sent && n in g.started && Inv(Send(s, x, n, pick), SendLog(s, g, x, n))
  {
    NodeAt(s, g, n);
    hide NodeOk;
    var s', g' := Send(s, x, n, pick), SendLog(s, g, x, n);
    forall m | m in s'.nodes ensures NodeOk(s', g', m) {
      if s.nodes[n].hasAsync { SendWaits(s, g, x, n, pick, m); } else { SendStarts(s, g, x, n, pick, m); }
    }
    SendLists(s, x, n, pick);
  }

  lemma SendLists(s: State, x: Xid, n: Nid, pick: Option<Tid>)
    requires ListsOk(s) && n in s.nodes && x !in s.calls && !s.dead && (pick.Some? ==> pick.value in s.threadTodo)
    ensures ListsOk(Send(s, x, n, pick))
  {
    if !s.nodes[n].hasAsync {
      var s1 := s.(nodes := s.nodes[n := s.nodes[n].(hasAsync := true)], calls := s.calls[x := Call(n, Reading)]);
      EnqueueLists(s1, x, pick);
    }
  }

  lemma DequeueInv(s: State, g: Log, thread: Option<Tid>)
    requires Inv(s, g)
    requires match thread case Some(t) => t in s.threadTodo && s.threadTodo[t] != [] && s.threadTodo[t][0] in s.calls
                          case None => s.procTodo != [] && s.procTodo[0] in s.calls
    ensures Inv(Dequeue(s, thread), g)
  {
    hide NodeOk, ListsOk;
    var s' := Dequeue(s, thread);
    var x := match thread case Some(t) => s.threadTodo[t][0] case None => s.procTodo[0];
    DequeueLists(s, thread);
    HeadQueued(s, thread, x);
    forall n | n in s'.nodes ensures NodeOk(s', g, n) { MoveNode(s, g, s', x, Reading, n); }
  }

  lemma HeadQueued(s: State, thread: Option<Tid>, x: Xid)
    requires ListsOk(s)
    requires match thread case Some(t) => t in s.threadTodo && s.threadTodo[t] != [] && s.threadTodo[t][0] == x
                          case None => s.procTodo != [] && s.procTodo[0] == x
    ensures x in s.calls && s.calls[x].place == Queued(thread)
  {
    match thread
    case Some(t) => assert x in s.threadTodo[t];
    case None => assert x in s.procTodo;
  }

  lemma SetPlaceInv(s: State, g: Log, x: Xid, place: Place)
    requires Inv(s, g) && x in s.calls && s.calls[x].place == Reading && place in {Delivered, Lost}
    ensures Inv(SetPlace(s, x, place), g)
  {
    hide NodeOk;
    var s' := SetPlace(s, x, place);
    forall n | n in s'.nodes ensures NodeOk(s', g, n) { MoveNode(s, g, s', x, place, n); }
  }

  /** Freeing the last outstanding call leaves the node idle. */
  lemma FreeIdle(s: State, g: Log, x: Xid, n: Nid)
    requires n in s.nodes && NodeOk(s, g, n) && Current(s, n, x) && s.nodes[n].asyncTodo == []
    ensures NodeOk(s.(calls := s.calls - {x}, nodes := s.nodes[n := Node(false, [])]), g, n)
  {
    var s' := s.(calls := s.calls - {x}, nodes := s.nodes[n := Node(false, [])]);
    assert forall y :: Current(s', n, y) ==> Current(s, n, y) && y != x;
    assert forall y :: y in s'.calls && s'.calls[y] == Call(n, Waiting) ==> y in s.nodes[n].asyncTodo;
  }

  /** Freeing with calls waiting starts the first of them. */
  lemma FreeNext(s: State, g: Log, x: Xid, n: Nid, s': State, g': Log)
    requires n in s.nodes && NodeOk(s, g, n) && Current(s, n, x) && s.nodes[n].asyncTodo != []
    requires var q := s.nodes[n].asyncTodo;
             && s'.nodes == s.nodes[n := Node(s.nodes[n].hasAsync, q[1..])]
             && q[0] in s.calls && s'.calls == (s.calls - {x})[q[0] := Call(n, Queued(None))]
             && g' == g.(started := g.started[n := g.started[n] + [q[0]]])
    ensures NodeOk(s', g', n)
  {
    var q := s.nodes[n].asyncTodo;
    DistinctTail(q);
    assert q[0] in q;
    assert Current(s', n, q[0]);
    assert forall y :: Current(s', n, y) && y != q[0] ==> Current(s, n, y) && y != x;
    assert g.started[n] + q == g.started[n] + [q[0]] + q[1..];
  }

  lemma FreeOther(s: State, g: Log, x: Xid, m: Nid)
    requires x in s.calls && s.calls[x].node in s.nodes && s.calls[x].node in g.started && s.calls[x].place != Waiting
    requires var q := s.nodes[s.calls[x].node].asyncTodo;
             q != [] ==> q[0] in s.calls - {x} && s.calls[q[0]].node == s.calls[x].node
    requires m in s.nodes && m != s.calls[x].node && NodeOk(s, g, m) && m in g.sent && m in g.started
    ensures NodeOk(FreeBuf(s, x), FreeLog(s, g, x), m)
  {
    hide NodeOk;
    var s' := FreeBuf(s, x);
    assert forall y :: Current(s', m, y) <==> Current(s, m, y);
    NodeFrame(s, g, s', FreeLog(s, g, x), m);
  }

  lemma FreeNode(s: State, g: Log, x: Xid, m: Nid)
    requires Inv(s, g) && x in s.calls && !s.calls[x].place.Waiting? && s.calls[x].node in s.nodes && s.calls[x].node in g.started && m in s.nodes
    requires s.nodes[s.calls[x].node].asyncTodo != [] ==> s.nodes[s.calls[x].node].asyncTodo[0] in s.calls - {x}
    ensures NodeOk(FreeBuf(s, x), FreeLog(s, g, x), m)
  {
    NodeAt(s, g, m);
    CallAt(s, g, x);
    var n := s.calls[x].node;
    var q := s.nodes[n].asyncTodo;
    if q != [] { FirstWaits(s, g, n); }
    hide NodeOk, Inv;
    if m != n {
      FreeOther(s, g, x, m);
    } else if q == [] {
      FreeIdle(s, g, x, n);
    } else {
      FreeNext(s, g, x, n, FreeBuf(s, x), FreeLog(s, g, x));
    }
  }

  lemma FirstWaits(s: State, g: Log, n: Nid)
    requires n in s.nodes && NodeOk(s, g, n) && s.nodes[n].asyncTodo != []
    ensures s.nodes[n].asyncTodo[0] in s.calls && s.calls[s.nodes[n].asyncTodo[0]] == Call(n, Waiting)
  {
    assert s.nodes[n].asyncTodo[0] in s.nodes[n].asyncTodo;
  }

  lemma FreeFacts(s: State, g: Log, x: Xid)
    requires Inv(s, g) && x in s.calls && !s.calls[x].place.Waiting?
    ensures var n := s.calls[x].node;
            && n in s.nodes && n in g.started && s.nodes[n].hasAsync
            && (s.nodes[n].asyncTodo != [] ==> s.nodes[n].asyncTodo[0] in s.calls - {x} && s.calls[s.nodes[n].asyncTodo[0]].place == Waiting)
  {
    CallAt(s, g, x);
    var n := s.calls[x].node;
    assert Current(s, n, x);
    if s.nodes[n].asyncTodo != [] { assert s.nodes[n].asyncTodo[0] in s.nodes[n].asyncTodo; }
  }

  /** Freeing a buffer that was delivered, or whose delivery failed, keeps everything in order. */
  lemma FreeInv(s: State, g: Log, x: Xid)
    requires Inv(s, g) && x in s.calls && s.calls[x].place in {Reading, Delivered}
    ensures s.calls[x].node in s.nodes && s.calls[x].node in g.started
    ensures s.nodes[s.calls[x].node].asyncTodo != [] ==> s.nodes[s.calls[x].node].asyncTodo[0] in s.calls - {x}
    ensures Inv(FreeBuf(s, x), FreeLog(s, g, x))
  {
    FreeFacts(s, g, x);
    hide NodeOk, ListsOk;
    var s', g' := FreeBuf(s, x), FreeLog(s, g, x);
    forall m | m in s'.nodes ensures NodeOk(s', g', m) { FreeNode(s, g, x, m); }
    FreeLists(s, x);
  }

  lemma FreeLists(s: State, x: Xid)
    requires ListsOk(s) && x in s.calls && s.calls[x].place in {Reading, Delivered} && s.calls[x].node in s.nodes
    requires var q := s.nodes[s.calls[x].node].asyncTodo; q != [] ==> q[0] in s.calls - {x} && s.calls[q[0]].place == Waiting
    ensures ListsOk(FreeBuf(s, x))
  {
    var n := s.calls[x].node;
    var q := s.nodes[n].asyncTodo;
    if q != [] { EnqueueLists(s.(calls := s.calls - {x}, nodes := s.nodes[n := Node(s.nodes[n].hasAsync, q[1..])]), q[0], None); }
  }

  // ---- What holds of every node of a living process ----

  /** The claim one would expect: the mark is set exactly while one call is queued for delivery, or delivered and not freed. */
  ghost predicate MarkMeansOutstanding(s: State, n: Nid)
    requires n in s.nodes
  {
    s.nodes[n].hasAsync <==> exists x :: Current(s, n, x) && s.calls[x].place != Lost
  }

  /** It holds exactly when no call to the node was lost on its way to user space. */
  lemma MarkExact(s: State, g: Log, n: Nid)
    requires Inv(s, g) && n in s.nodes
    ensures MarkMeansOutstanding(s, n) <==> forall x :: Current(s, n, x) ==> s.calls[x].place != Lost
  {
    NodeAt(s, g, n);
  }

  /** The mark holds exactly while one buffer is out, never two, and nothing waits without it; calls start
      in the order they were sent and none is skipped. */
  lemma Serial(s: State, g: Log, n: Nid)
    requires Inv(s, g) && n in s.nodes
    ensures s.nodes[n].hasAsync <==> exists x :: Current(s, n, x)
    ensures forall x, y :: Current(s, n, x) && Current(s, n, y) ==> x == y
    ensures s.nodes[n].asyncTodo != [] ==> s.nodes[n].hasAsync
    ensures g.sent[n] == g.started[n] + s.nodes[n].asyncTodo
    ensures forall x :: Current(s, n, x) ==> g.started[n] != [] && g.started[n][|g.started[n]| - 1] == x
  {
    NodeAt(s, g, n);
  }

  class Process {
    var st: State
    var bug: bool        // the BUG_ON of binder_free_buf was reached
    ghost var g: Log

    ghost predicate Valid()
      reads this
    {
      Inv(st, g) && !bug && !st.dead
    }

    constructor ()
      ensures Valid() && st == State(false, map[], map[], [], map[])
    {
      st, bug, g := State(false, map[], map[], [], map[]), false, Log(map[], map[]);
    }

    method AddNode(n: Nid)
      requires Valid() && n !in st.nodes
      modifies this
      ensures Valid() && st == old(st).(nodes := old(st).nodes[n := Node(false, [])])
    {
      ghost var s0, g0 := st, g;
      st := st.(nodes := st.nodes[n := Node(false, [])]);
      g := Log(g.sent[n := []], g.started[n := []]);
      forall m | m in st.nodes ensures NodeOk(st, g, m) {
        assert forall x :: Current(st, m, x) <==> Current(s0, m, x);
        if m != n { NodeFrame(s0, g0, st, g, m); }
      }
    }

    method AddThread(t: Tid)
      requires Valid() && t !in st.threadTodo && forall x :: x in st.calls ==> st.calls[x].place != Queued(Some(t))
      modifies this
      ensures Valid() && st == old(st).(threadTodo := old(st).threadTodo[t := []])
    {
      hide NodeOk;
      ghost var s0 := st;
      st := st.(threadTodo := st.threadTodo[t := []]);
      forall m | m in st.nodes ensures NodeOk(st, g, m) { SameCalls(s0, st, g, m); }
    }

    /** A one-way send to a node of this process: delivered at once if the node is idle, kept waiting otherwise. */
    method SendOneWay(x: Xid, n: Nid, pick: Option<Tid>)
      requires Valid() && n in st.nodes && x !in st.calls && (pick.Some? ==> pick.value in st.threadTodo)
      modifies this
      ensures Valid() && st == Send(old(st), x, n, pick)
      ensures n in old(g).sent && n in g.sent && g.sent[n] == old(g).sent[n] + [x]
      // Behind the others if the node is busy; otherwise last on the list of the thread picked or of the process, and the node is busy now.
      ensures var nd := old(st).nodes[n];
              st == if nd.hasAsync then
                      old(st).(nodes := old(st).nodes[n := Node(true, nd.asyncTodo + [x])], calls := old(st).calls[x := Call(n, Waiting)])
                    else
                      old(st).(nodes := old(st).nodes[n := Node(true, nd.asyncTodo)], calls := old(st).calls[x := Call(n, Queued(pick))],
                               procTodo := if pick == None then old(st).procTodo + [x] else old(st).procTodo,
                               threadTodo := match pick
                                             case None => old(st).threadTodo
                                             case Some(t) => old(st).threadTodo[t := old(st).threadTodo[t] + [x]])
    {
      hide Inv, Send;
      SendIs(st, x, n, pick);
      SendInv(st, g, x, n, pick);
      SendRecorded(st, g, x, n, pick);
      st, g := Send(st, x, n, pick), SendLog(st, g, x, n);
    }

    /** A thread takes the next call from its own list or the process's. */
    method Take(thread: Option<Tid>) returns (x: Xid)
      requires Valid()
      requires match thread case Some(t) => t in st.threadTodo && st.threadTodo[t] != [] case None => st.procTodo != []
      modifies this
      ensures Valid() && x in old(st).calls && x in st.calls && st.calls[x].place == Reading && g == old(g)
      ensures x == match thread case Some(t) => old(st).threadTodo[t][0] case None => old(st).procTodo[0]
      ensures st == Dequeue(old(st), thread)
      ensures st == old(st).(calls := old(st).calls[x := Call(old(st).calls[x].node, Reading)],
                             procTodo := if thread == None then old(st).procTodo[1..] else old(st).procTodo,
                             threadTodo := match thread
                                           case None => old(st).threadTodo
                                           case Some(t) => old(st).threadTodo[t := old(st).threadTodo[t][1..]])
    {
      hide Inv, Dequeue;
      x := match thread case Some(t) => st.threadTodo[t][0] case None => st.procTodo[0];
      InvLists(st, g);
      HeadQueued(st, thread, x);
      DequeueInv(st, g, thread);
      DequeueEffect(st, thread);
      DequeueIs(st, thread);
      st := Dequeue(st, thread);
    }

    /** The end of the delivery. When descriptors cannot be installed the buffer is freed and the next call
        starts; when the command cannot be written the buffer stays behind. */
    method Deliver(x: Xid, fdsOk: bool, copyOk: bool)
      requires Valid() && x in st.calls && st.calls[x].place == Reading
      modifies this
      ensures Valid()
      ensures x in old(st).calls && old(st).calls[x].node in st.nodes
      ensures st == if !fdsOk then FreeBuf(old(st), x) else SetPlace(old(st), x, if copyOk then Delivered else Lost)
      ensures fdsOk ==> st == old(st).(calls := old(st).calls[x := Call(old(st).calls[x].node, if copyOk then Delivered else Lost)])
    {
      hide NodeOk, ListsOk;
      CallAt(st, g, x);
      if !fdsOk {
        Free(x);
      } else {
        SetPlaceInv(st, g, x, if copyOk then Delivered else Lost);
        st := SetPlace(st, x, if copyOk then Delivered else Lost);
      }
    }

    /** binder_free_buf on a one-way buffer of this process. */
    method Free(x: Xid)
      requires Valid() && x in st.calls && st.calls[x].place in {Reading, Delivered}
      modifies this
      ensures Valid() && x !in st.calls
      ensures var n := old(st).calls[x].node; var q := if n in old(st).nodes then old(st).nodes[n].asyncTodo else [];
              && n in old(st).nodes && n in st.nodes && st == FreeBuf(old(st), x)
              && (q == [] ==> !st.nodes[n].hasAsync)
              && (q != [] ==> st.nodes[n].asyncTodo == q[1..] && q[0] in st.calls && st.calls[q[0]].place == Queued(None))
      // The first waiting call goes to the end of the process's list, the node staying busy; without one the node is idle.
      ensures var n := old(st).calls[x].node;
              && n in old(st).nodes
              && var q := old(st).nodes[n].asyncTodo;
                 st == if q == [] then old(st).(calls := old(st).calls - {x}, nodes := old(st).nodes[n := Node(false, [])])
                       else old(st).(calls := (old(st).calls - {x})[q[0] := Call(n, Queued(None))],
                                     nodes := old(st).nodes[n := Node(true, q[1..])], procTodo := old(st).procTodo + [q[0]])
    {
      hide NodeOk, ListsOk;
      FreeInv(st, g, x);
      FreeFacts(st, g, x);
      bug := bug || !st.nodes[st.calls[x].node].hasAsync;
      FreeEffect(st, g, x);
      FreeIs(st, g, x);
      st, g := FreeBuf(st, x), FreeLog(st, g, x);
    }

    /** binder_release_work on a dying thread's list: the transactions go, their buffers stay allocated. */
    method ThreadRelease(t: Tid)
      requires Valid() && t in st.threadTodo
      modifies this
      ensures Valid() && t in st.threadTodo && st.threadTodo[t] == [] && g == old(g)
      ensures forall x :: x in old(st).calls <==> x in st.calls
      ensures forall x :: x in st.calls ==>
                st.calls[x] == if old(st).calls[x].place == Queued(Some(t)) then Call(old(st).calls[x].node, Lost) else old(st).calls[x]
      ensures st.nodes == old(st).nodes && st.procTodo == old(st).procTodo && st.threadTodo == old(st).threadTodo[t := []]
    {
      hide NodeOk, ListsOk;
      ghost var s0 := st;
      while st.threadTodo[t] != []
        invariant Valid() && t in st.threadTodo && g == old(g)
        invariant forall x :: x in s0.calls <==> x in st.calls
        invariant forall x :: x in st.calls ==>
                    || st.calls[x] == s0.calls[x]
                    || (s0.calls[x].place == Queued(Some(t)) && st.calls[x] == Call(s0.calls[x].node, Lost))
        invariant st.nodes == s0.nodes && st.procTodo == s0.procTodo && st.threadTodo == s0.threadTodo[t := st.threadTodo[t]]
        decreases |st.threadTodo[t]|
      {
        var x := st.threadTodo[t][0];
        HeadQueued(st, Some(t), x);
        DequeueInv(st, g, Some(t));
        st := Dequeue(st, Some(t));
        SetPlaceInv(st, g, x, Lost);
        st := SetPlace(st, x, Lost);
      }
      EmptyList(st, t);
    }
  }

  lemma SendIs(s: State, x: Xid, n: Nid, pick: Option<Tid>)
    requires n in s.nodes && x !in s.calls && !s.dead && (pick.Some? ==> pick.value in s.threadTodo)
    ensures var nd := s.nodes[n];
            Send(s, x, n, pick)
            == if nd.hasAsync then s.(nodes := s.nodes[n := Node(true, nd.asyncTodo + [x])], calls := s.calls[x := Call(n, Waiting)])
               else s.(nodes := s.nodes[n := Node(true, nd.asyncTodo)], calls := s.calls[x := Call(n, Queued(pick))],
                       procTodo := if pick == None then s.procTodo + [x] else s.procTodo,
                       threadTodo := match pick case None => s.threadTodo case Some(t) => s.threadTodo[t := s.threadTodo[t] + [x]])
  {
  }

  lemma DequeueIs(s: State, thread: Option<Tid>)
    requires match thread case Some(t) => t in s.threadTodo && s.threadTodo[t] != [] && s.threadTodo[t][0] in s.calls
                          case None => s.procTodo != [] && s.procTodo[0] in s.calls
    ensures var x := match thread case Some(t) => s.threadTodo[t][0] case None => s.procTodo[0];
            Dequeue(s, thread)
            == s.(calls := s.calls[x := Call(s.calls[x].node, Reading)],
                  procTodo := if thread == None then s.procTodo[1..] else s.procTodo,
                  threadTodo := match thread case None => s.threadTodo case Some(t) => s.threadTodo[t := s.threadTodo[t][1..]])
  {
  }

  lemma FreeIs(s: State, g: Log, x: Xid)
    requires Inv(s, g) && x in s.calls && !s.calls[x].place.Waiting? && s.calls[x].node in s.nodes
    requires var q := s.nodes[s.calls[x].node].asyncTodo; q != [] ==> q[0] in s.calls - {x}
    ensures var n := s.calls[x].node; var q := s.nodes[n].asyncTodo;
            FreeBuf(s, x)
            == if q == [] then s.(calls := s.calls - {x}, nodes := s.nodes[n := Node(false, [])])
               else s.(calls := (s.calls - {x})[q[0] := Call(n, Queued(None))], nodes := s.nodes[n := Node(true, q[1..])], procTodo := s.procTodo + [q[0]])
  {
    hide Inv;
    var n := s.calls[x].node;
    NodeAt(s, g, n);
    if s.nodes[n].asyncTodo != [] { FirstWaits(s, g, n); }
  }

  lemma InvLists(s: State, g: Log)
    requires Inv(s, g)
    ensures ListsOk(s)
  {
  }

  lemma DequeueEffect(s: State, thread: Option<Tid>)
    requires match thread case Some(t) => t in s.threadTodo && s.threadTodo[t] != [] && s.threadTodo[t][0] in s.calls
                          case None => s.procTodo != [] && s.procTodo[0] in s.calls
    ensures var x := match thread case Some(t) => s.threadTodo[t][0] case None => s.procTodo[0];
            x in Dequeue(s, thread).calls && Dequeue(s, thread).calls[x].place == Reading && Dequeue(s, thread).dead == s.dead
  {
  }

  /** A living process stays so, and the call goes on the node's record. */
  lemma SendRecorded(s: State, g: Log, x: Xid, n: Nid, pick: Option<Tid>)
    requires n in s.nodes && n in g.sent && n in g.started && !s.dead && x !in s.calls && (pick.Some? ==> pick.value in s.threadTodo)
    ensures !Send(s, x, n, pick).dead && SendLog(s, g, x, n).sent[n] == g.sent[n] + [x]
  {
  }

  lemma FreeEffect(s: State, g: Log, x: Xid)
    requires Inv(s, g) && x in s.calls && !s.calls[x].place.Waiting? && s.calls[x].node in s.nodes
    requires var q := s.nodes[s.calls[x].node].asyncTodo; q != [] ==> q[0] in s.calls - {x}
    ensures var n, s' := s.calls[x].node, FreeBuf(s, x); var q := s.nodes[n].asyncTodo;
            && x !in s'.calls && n in s'.nodes
            && (q == [] ==> !s'.nodes[n].hasAsync)
            && (q != [] ==> s'.nodes[n].asyncTodo == q[1..] && q[0] in s'.calls && s'.calls[q[0]].place == Queued(None))
  {
  }

  lemma SameCalls(s: State, s': State, g: Log, n: Nid)
    requires n in s.nodes && NodeOk(s, g, n) && s'.nodes == s.nodes && s'.calls == s.calls
    ensures NodeOk(s', g, n)
  {
    NodeFrame(s, g, s', g, n);
  }

  lemma EmptyList(s: State, t: Tid)
    requires ListsOk(s) && t in s.threadTodo && s.threadTodo[t] == []
    ensures forall x :: x in s.calls ==> s.calls[x].place != Queued(Some(t))
  {
  }

  /** The mark can outlive every queued and delivered call: two calls to an idle node, the first picked by thread t,
      and t dies before it reads it. The node stays marked and the second call waits for good. */
  lemma MarkCanStick(t: Tid, n: Nid, x: Xid, y: Xid)
    requires x != y
    ensures var s0 := State(false, map[n := Node(false, [])], map[], [], map[t := []]);
            var s2 := Send(Send(s0, x, n, Some(t)), y, n, None);
            && s2.threadTodo[t] == [x]
            && var s3 := SetPlace(Dequeue(s2, Some(t)), x, Lost);
               n in s3.nodes && !MarkMeansOutstanding(s3, n) && s3.nodes[n] == Node(true, [y])
  {
    var s0 := State(false, map[n := Node(false, [])], map[], [], map[t := []]);
    var s1 := Send(s0, x, n, Some(t));
    assert s1.threadTodo[t] == [] + [x] == [x];
    var s2 := Send(s1, y, n, None);
    assert s2.nodes[n].asyncTodo == [] + [y] == [y];
    var s3 := SetPlace(Dequeue(s2, Some(t)), x, Lost);
    assert s3.calls == map[x := Call(n, Lost), y := Call(n, Waiting)];
    assert forall z :: Current(s3, n, z) ==> z == x;
  }

  /** A dying thread breaks the claim for a node exactly when a call to it was on that thread's list; before the
      death this can be read off the list. */
  lemma ReleaseBreaksIff(s: State, g: Log, t: Tid, s': State, n: Nid)
    requires Inv(s, g) && t in s.threadTodo && n in s.nodes && MarkMeansOutstanding(s, n)
    requires s'.nodes == s.nodes && s'.calls.Keys == s.calls.Keys
    requires forall x :: x in s.calls ==>
               s'.calls[x] == if s.calls[x].place == Queued(Some(t)) then Call(s.calls[x].node, Lost) else s.calls[x]
    ensures MarkMeansOutstanding(s', n) <==> forall x :: x in s.threadTodo[t] ==> s.calls[x].node != n
  {
    NodeAt(s, g, n);
    assert forall x :: Current(s', n, x) <==> Current(s, n, x);
    if x :| x in s.threadTodo[t] && s.calls[x].node == n {
      assert Current(s, n, x);
    } else if x :| Current(s, n, x) && s.calls[x].place != Lost {
      assert Current(s', n, x);
    }
  }

  /** The end of a delivery breaks the claim for a node exactly when the call was made to that node and cannot be
      written out. */
  lemma DeliverBreaksIff(s: State, g: Log, x: Xid, copyOk: bool, n: Nid)
    requires Inv(s, g) && x in s.calls && s.calls[x].place == Reading && n in s.nodes && MarkMeansOutstanding(s, n)
    ensures MarkMeansOutstanding(SetPlace(s, x, if copyOk then Delivered else Lost), n) <==> copyOk || s.calls[x].node != n
  {
    NodeAt(s, g, n);
    var s' := SetPlace(s, x, if copyOk then Delivered else Lost);
    assert forall y :: Current(s', n, y) <==> Current(s, n, y);
    if s.calls[x].node == n { assert Current(s, n, x); }
    if y :| Current(s, n, y) && s.calls[y].place != Lost && y != x { assert Current(s', n, y) && s'.calls[y].place != Lost; }
  }

  /** A send to a process that is dead is refused, but marks the node first: the claim is one about living processes. */
  lemma DeadSendMarks(s: State, g: Log, x: Xid, n: Nid, pick: Option<Tid>)
    requires Inv(s, g) && s.dead && n in s.nodes && !s.nodes[n].hasAsync && x !in s.calls && (pick.Some? ==> pick.value in s.threadTodo)
    ensures Send(s, x, n, pick).calls == s.calls && n in Send(s, x, n, pick).nodes && !MarkMeansOutstanding(Send(s, x, n, pick), n)
  {
    NodeAt(s, g, n);
    var s' := Send(s, x, n, pick);
    assert forall y :: Current(s', n, y) <==> Current(s, n, y);
  }
}
