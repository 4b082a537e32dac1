/** The driver's operations on synchronous calls, step by step on the shared state. A method without an environment is one
    region under a lock. An operation that spans several regions takes an environment: what other threads and workers do
    between them. */
module CallDriver {
  import opened Words
  import opened CallStack
  import opened CallSteps
  import opened CallEnds
  import opened CallStable

  // ---- Todo lists ----

  /** list_del of one work item */
  function Without(todo: seq<Work>, w: Work): seq<Work> {
    if todo == [] then [] else if todo[0] == w then todo[1..] else [todo[0]] + Without(todo[1..], w)
  }

  /** The first w of a list is gone, if there is one, and the others are as they were. */
  ghost predicate FirstGone(todo: seq<Work>, todo': seq<Work>, w: Work) {
    if w in todo then exists i :: 0 <= i < |todo| && todo[i] == w && w !in todo[..i] && todo' == todo[..i] + todo[i + 1..]
    else todo' == todo
  }

  lemma {:induction false} WithoutIs(todo: seq<Work>, w: Work)
    ensures FirstGone(todo, Without(todo, w), w)
  {
    if todo != [] && todo[0] != w {
      WithoutIs(todo[1..], w);
      LaterGone(todo, Without(todo[1..], w), w);
    }
    if todo != [] && todo[0] == w { assert todo[..0] + todo[0 + 1..] == todo[1..]; }
  }

  lemma LaterGone(todo: seq<Work>, rest: seq<Work>, w: Work)
    requires todo != [] && todo[0] != w && FirstGone(todo[1..], rest, w)
    ensures FirstGone(todo, [todo[0]] + rest, w)
  {
    var tail := todo[1..];
    assert todo == [todo[0]] + tail;
    if w in tail {
      var i: nat :| i < |tail| && tail[i] == w && w !in tail[..i] && rest == tail[..i] + tail[i + 1..];
      OneFurther(todo[0], tail, i);
      assert todo[i + 1] == w;
    }
  }

  lemma OneFurther(first: Work, tail: seq<Work>, i: nat)
    requires i < |tail|
    ensures ([first] + tail)[..i + 1] == [first] + tail[..i]
    ensures [first] + (tail[..i] + tail[i + 1..]) == ([first] + tail)[..i + 1] + ([first] + tail)[i + 1 + 1..]
  {
  }

  lemma {:induction false} CallsWithout(todo: seq<Work>, w: Work)
    requires !w.Call?
    ensures Calls(Without(todo, w)) == Calls(todo)
    ensures todo != [] && todo[0].Call? ==> Without(todo, w) != [] && Without(todo, w)[0] == todo[0]
  {
    if todo != [] && todo[0] != w {
      CallsWithout(todo[1..], w);
      CallsConcat([todo[0]], Without(todo[1..], w));
      CallsOne(todo[0]);
    }
  }

  lemma CallsAppend(todo: seq<Work>, w: Work)
    requires !w.Call?
    ensures Calls(todo + [w]) == Calls(todo)
  {
    CallsConcat(todo, [w]);
    CallsOne(w);
  }

  /** Appending anything but a call to the list of a thread that is not waiting. */
  lemma AppendInv(s: State, g: History, a: Tid, w: Work)
    requires Inv(s, g) && a in s.threads && !s.threads[a].waiting && !w.Call?
    ensures Inv(WithTodo(s, a, s.threads[a].todo + [w]), g)
  {
    hide Inv;
    CallsAppend(s.threads[a].todo, w);
    WithTodoInv(s, g, a, s.threads[a].todo + [w]);
  }

  lemma RemoveInv(s: State, g: History, a: Tid, w: Work)
    requires Inv(s, g) && a in s.threads && !s.threads[a].waiting && !w.Call?
    ensures Inv(WithTodo(s, a, Without(s.threads[a].todo, w)), g)
  {
    hide Inv;
    CallsWithout(s.threads[a].todo, w);
    EmptyCalls(s.threads[a].todo);
    WithTodoInv(s, g, a, Without(s.threads[a].todo, w));
  }

  lemma EmptyCalls(todo: seq<Work>)
    ensures todo == [] ==> Calls(todo) == []
  {
  }

  /** The first item leaves the list; it is not a call. */
  lemma DropHeadInv(s: State, g: History, a: Tid)
    requires Inv(s, g) && a in s.threads && !s.threads[a].waiting && s.threads[a].todo != [] && !s.threads[a].todo[0].Call?
    ensures Inv(WithTodo(s, a, s.threads[a].todo[1..]), g)
  {
    hide Inv;
    var todo := s.threads[a].todo;
    WithTodoInv(s, g, a, todo[1..]);
  }

  // ---- What a failed reply does ----

  /** reply_error is queued unless one is pending already. */
  function Notify(s: State, a: Tid): State
    requires a in s.threads
  {
    if ReplyError in s.threads[a].todo then s else WithTodo(s, a, s.threads[a].todo + [ReplyError])
  }

  /** binder_send_failed_reply: the nearest living caller is told; every transaction up to it ends. */
  function Fail(s: State, x: Xid): State
    decreases x
  {
    if x !in s.txns then s
    else
      var t := s.txns[x];
      if t.from.Some? then
        if t.from.value in s.threads then Notify(WithoutTop(s, x), t.from.value) else s
      else if t.fromParent.Some? && t.fromParent.value < x then Fail(WithoutOrphan(s, x), t.fromParent.value)
      else WithoutOrphan(s, x)
  }

  function AddTodo(s: State, a: Tid, w: Work): State {
    if a in s.threads then WithTodo(s, a, s.threads[a].todo + [w]) else s
  }

  /** The call x ends and its reply is queued for the caller. */
  function HandOver(s: State, x: Xid): State {
    if x in s.txns && s.txns[x].from.Some? && s.txns[x].from.value in s.threads then
      AddTodo(WithoutTop(s, x), s.txns[x].from.value, Reply(x))
    else s
  }

  /** list_del of a work item from a thread's list. */
  function DropTodo(s: State, a: Tid, w: Work): State {
    if a in s.threads then WithTodo(s, a, Without(s.threads[a].todo, w)) else s
  }

  /** The thread lets go of the call in its hands, which fails. */
  function LetGo(s: State, a: Tid): State {
    if a in s.threads && s.threads[a].busy.Holding? && s.threads[a].busy.x in s.txns then Unhold(s, a) else s
  }

  /** What releasing the first item of a dead thread's list does: a call fails, anything else goes. */
  function DrainOne(s: State, a: Tid): State
    requires a in s.threads && s.threads[a].todo != []
  {
    var w := s.threads[a].todo[0];
    if !w.Call? then WithTodo(s, a, s.threads[a].todo[1..]) else if w.x in s.txns then Fail(DropOwn(s, a), w.x) else s
  }

  /** The same for the first n items, one by one. */
  function Drained(s: State, a: Tid, n: nat): State
    decreases n
  {
    if n == 0 || a !in s.threads || s.threads[a].todo == [] then s else Drained(DrainOne(s, a), a, n - 1)
  }

  /** The same for a dead process's list, on which there are only calls. */
  function ProcDrained(s: State, p: Pid, n: nat): State
    decreases n
  {
    if n == 0 || p !in s.procTodo || s.procTodo[p] == [] || s.procTodo[p][0] !in s.txns then s
    else ProcDrained(Fail(DropProc(s, p), s.procTodo[p][0]), p, n - 1)
  }

  /** The transactions that end with x: x itself and, while callers are gone, the calls it was made for. */
  ghost function FailChain(s: State, x: Xid): set<Xid>
    decreases x
  {
    if x !in s.txns then {}
    else
      var t := s.txns[x];
      if t.from == None && t.fromParent.Some? && t.fromParent.value < x then {x} + FailChain(s, t.fromParent.value) else {x}
  }

  lemma {:induction false} FailChainBelow(s: State, x: Xid)
    ensures forall y :: y in FailChain(s, x) ==> y in s.txns && y <= x
    decreases x
  {
    if x in s.txns && s.txns[x].from == None && s.txns[x].fromParent.Some? && s.txns[x].fromParent.value < x {
      FailChainBelow(s, s.txns[x].fromParent.value);
    }
  }

  /** The chain above x does not change when x leaves. */
  lemma {:induction false} FailChainFrame(s: State, s': State, x: Xid)
    requires forall y :: y in s.txns && y <= x ==>
               y in s'.txns && s'.txns[y].from == s.txns[y].from && s'.txns[y].fromParent == s.txns[y].fromParent
    requires x in s.txns
    requires forall y :: y in s.txns && s.txns[y].fromParent.Some? ==> s.txns[y].fromParent.value in s.txns
    ensures FailChain(s', x) == FailChain(s, x)
    decreases x
  {
    var t := s.txns[x];
    if t.from == None && t.fromParent.Some? && t.fromParent.value < x { FailChainFrame(s, s', t.fromParent.value); }
  }

  lemma ParentsLive(s: State, g: History)
    requires Inv(s, g)
    ensures forall y :: y in s.txns && s.txns[y].fromParent.Some? ==> s.txns[y].fromParent.value in s.txns
  {
    hide Inv;
    forall y | y in s.txns && s.txns[y].fromParent.Some? ensures s.txns[y].fromParent.value in s.txns { TxnAt(s, g, y); }
  }

  /** Exactly the chain ends: error propagation frees each of its transactions once and touches no other. */
  lemma {:induction false} FailEndsChain(s: State, g: History, x: Xid)
    requires Inv(s, g) && x in s.txns && s.txns[x].place == Failing
    ensures Fail(s, x).txns.Keys == s.txns.Keys - FailChain(s, x)
    decreases x
  {
    hide Inv;
    var t := s.txns[x];
    if t.from.Some? {
      WithoutTopInv(s, g, x, ErrorToCaller);
    } else {
      WithoutOrphanInv(s, g, x, CallerGone);
      if t.fromParent.Some? {
        var p := t.fromParent.value;
        FailEndsChain(WithoutOrphan(s, x), EndHistory(g, x, CallerGone), p);
        ParentsLive(s, g);
        FailChainFrame(s, WithoutOrphan(s, x), p);
        FailChainBelow(s, p);
      }
    }
  }

  /** At most one thread hears of the failure: the nearest living caller up the chain. */
  function Told(s: State, x: Xid): Option<Tid>
    decreases x
  {
    if x !in s.txns then None
    else
      var t := s.txns[x];
      if t.from.Some? then t.from
      else if t.fromParent.Some? && t.fromParent.value < x then Told(s, t.fromParent.value)
      else None
  }

  /** Nobody else's stack or todo list changes, and the one told is back where it was before that call. */
  lemma {:induction false} FailTells(s: State, g: History, x: Xid, b: Tid)
    requires Inv(s, g) && x in s.txns && s.txns[x].place == Failing && b in s.threads
    ensures b in Fail(s, x).threads
    ensures Told(s, x) != Some(b) ==> Fail(s, x).threads[b] == s.threads[b]
    ensures Told(s, x) == Some(b) ==> ReplyError in Fail(s, x).threads[b].todo && s.threads[b].stack.Some?
                                      && s.threads[b].stack.value in FailChain(s, x)
    decreases x
  {
    hide Inv;
    var t := s.txns[x];
    if t.from.Some? {
      WithoutTopInv(s, g, x, ErrorToCaller);
      FailingFacts(s, g, x);
    } else {
      WithoutOrphanInv(s, g, x, CallerGone);
      if t.fromParent.Some? {
        var p := t.fromParent.value;
        var s1 := WithoutOrphan(s, x);
        FailTells(s1, EndHistory(g, x, CallerGone), p, b);
        ParentsLive(s, g);
        FailChainFrame(s, s1, p);
        ToldFrame(s, s1, p);
      }
    }
  }

  lemma {:induction false} ToldFrame(s: State, s': State, x: Xid)
    requires forall y :: y in s.txns && y <= x ==>
               y in s'.txns && s'.txns[y].from == s.txns[y].from && s'.txns[y].fromParent == s.txns[y].fromParent
    requires x in s.txns
    requires forall y :: y in s.txns && s.txns[y].fromParent.Some? ==> s.txns[y].fromParent.value in s.txns
    ensures Told(s', x) == Told(s, x)
    decreases x
  {
    var t := s.txns[x];
    if t.from == None && t.fromParent.Some? && t.fromParent.value < x { ToldFrame(s, s', t.fromParent.value); }
  }

  // ---- The walk over a dying thread's stack ----

  /** The stack's transactions up to index k are bereft, the others untouched. */
  ghost predicate Walked(s: State, txns: map<Xid, Txn>, a: Tid, st: seq<Xid>, k: nat)
    requires a in s.threads && k <= |st|
  {
    && txns.Keys == s.txns.Keys
    && forall y :: y in s.txns ==> txns[y] == if y in st[..k] then Bereft(s.txns[y], a, s.threads[a].stack == Some(y)) else s.txns[y]
  }

  lemma WalkStart(s: State, a: Tid, st: seq<Xid>)
    requires a in s.threads
    ensures Walked(s, s.txns, a, st, 0)
  {
  }

  lemma WalkStep(s: State, txns: map<Xid, Txn>, a: Tid, st: seq<Xid>, k: nat)
    requires a in s.threads && k < |st| && Walked(s, txns, a, st, k) && Descending(st) && st[k] in s.txns
    ensures st[k] in txns && txns[st[k]] == s.txns[st[k]]
    ensures Walked(s, txns[st[k] := Bereft(s.txns[st[k]], a, s.threads[a].stack == Some(st[k]))], a, st, k + 1)
  {
    assert st[..k + 1] == st[..k] + [st[k]];
    assert st[k] !in st[..k];
  }

  lemma WalkEnd(s: State, g: History, txns: map<Xid, Txn>, a: Tid)
    requires Inv(s, g) && Alive(s, a) && a in g.stk && Walked(s, txns, a, g.stk[a], |g.stk[a]|)
    ensures txns == Die(s, a).txns
  {
    hide Inv;
    assert g.stk[a][..|g.stk[a]|] == g.stk[a];
    forall y | y in s.txns ensures txns[y] == Die(s, a).txns[y] {
      if y !in g.stk[a] { OffStack(s, g, a, y); }
    }
  }

  lemma OffStack(s: State, g: History, a: Tid, y: Xid)
    requires Inv(s, g) && y in s.txns && a in g.stk && y !in g.stk[a]
    ensures s.txns[y].place != Delivered(a) && s.txns[y].from != Some(a)
  {
    TxnAt(s, g, y);
  }

  /** An outcome, once given, stays; and so does who called whom. */
  ghost predicate HistoryKept(g: History, g': History) {
    && (forall y :: y in g.ended ==> y in g'.ended && g'.ended[y] == g.ended[y])
    && (forall y :: y in g.parent ==> y in g'.parent && g'.parent[y] == g.parent[y])
  }

  // ---- What others do ----

  /** One region of anybody's operation. */
  datatype Event =
    | Plan(a: Tid, p: Pid, permitted: bool) | Abandon(a: Tid) | Push(a: Tid) | Queue(a: Tid, pick: Option<Tid>) | Undo(a: Tid)
    | Note(a: Tid, w: Work) | Unnote(a: Tid, w: Work)
    | FetchOwn(a: Tid) | FetchProc(a: Tid) | PutOnStack(a: Tid) | GiveUp(a: Tid) | Pop(a: Tid) | Hand(a: Tid)
    | Round(x: Xid)
    | Exit(a: Tid) | DropItem(a: Tid) | DropProcItem(p: Pid)
    | Sleep(a: Tid) | Awake(a: Tid) | Fork(a: Tid, p: Pid) | Open(p: Pid) | Kill(p: Pid)

  function Actor(e: Event): Who {
    match e
    case Round(_) => OfNobody
    case DropProcItem(_) => OfNobody
    case Fork(_, _) => OfNobody
    case Open(_) => OfNobody
    case Kill(_) => OfNobody
    case _ => OfThread(e.a)
  }

  function Subject(e: Event): Option<Xid> {
    if e.Round? then Some(e.x) else None
  }

  /** What an event does to the state; one that cannot run does nothing. */
  function Effect(s: State, e: Event): State {
    match e
    case Round(x) =>
      if x !in s.txns || s.txns[x].place != Failing then s
      else if s.txns[x].from.Some? then Fail(s, x)
      else WithoutOrphan(s, x)
    case DropProcItem(p) =>
      if p in s.procTodo && p in s.deadProcs && s.procTodo[p] != [] && s.procTodo[p][0] in s.txns then DropProc(s, p) else s
    case Fork(a, p) => if a !in s.threads && p in s.procTodo then NewThread(s, a, p) else s
    case Open(p) => if p !in s.procTodo then s.(procTodo := s.procTodo[p := []]) else s
    case Kill(p) => if p in s.procTodo then s.(deadProcs := s.deadProcs + {p}) else s
    case _ => if e.a in s.threads then ThreadEffect(s, e) else s
  }

  function ThreadEffect(s: State, e: Event): State
    requires Actor(e).OfThread? && e.a in s.threads
  {
    var th := s.threads[e.a];
    match e
    case Plan(a, p, permitted) =>
      if Free(th) && p in s.procTodo && p != th.proc && permitted && SendAllowed(s, a) then WithPlan(s, a, p) else s
    case Abandon(a) => if th.busy.Planning? then WithIdle(s, a) else s
    case Push(a) => if th.busy.Planning? then WithPush(s, a) else s
    case Queue(a, pick) => if IsSending(s, a) then QueueEffect(s, a, pick) else s
    case Undo(a) =>
      if IsSending(s, a) then
        s.(txns := s.txns - {th.busy.x}, threads := s.threads[a := th.(stack := s.txns[th.busy.x].fromParent, busy := Idle)])
      else s
    case Note(a, w) => if !th.waiting && !w.Call? then AddTodo(s, a, w) else s
    case Unnote(a, w) => if !th.waiting && !w.Call? then DropTodo(s, a, w) else s
    case _ => MoreEffect(s, e)
  }

  function QueueEffect(s: State, a: Tid, pick: Option<Tid>): State
    requires IsSending(s, a)
  {
    var t := s.txns[s.threads[a].busy.x];
    var thread := if t.toThread.Some? then t.toThread else pick;
    if pick.Some? && !(pick.value in s.threads && s.threads[pick.value].waiting && Some(s.threads[pick.value].proc) == t.toProc) then s
    else if t.toProc == None || t.toProc.value in s.deadProcs || t.toProc.value !in s.procTodo then s
    else if thread == None then QueueProc(s, a, t.toProc.value)
    else if Alive(s, thread.value) then QueueAt(s, a, thread.value)
    else s
  }

  function MoreEffect(s: State, e: Event): State
    requires Actor(e).OfThread? && e.a in s.threads
  {
    var th := s.threads[e.a];
    match e
    case FetchOwn(a) =>
      if !Free(th) || th.todo == [] then s
      else if !th.todo[0].Call? then WithTodo(s, a, th.todo[1..])
      else if th.todo[0].x in s.txns then TakeOwn(s, a)
      else s
    case FetchProc(a) => if ProcCall(s, a) && s.procTodo[th.proc][0] in s.txns then TakeProc(s, a) else s
    case PutOnStack(a) => if IsTaken(s, a) then Accept(s, a) else s
    case GiveUp(a) => if th.busy.Holding? && th.busy.x in s.txns && s.txns[th.busy.x].place in {Taken(a), Replying(a)} then LetGo(s, a) else s
    case Pop(a) => if IsServing(s, a) then ReplyPop(s, a) else s
    case Hand(a) =>
      if th.busy.Holding? && th.busy.x in s.txns && s.txns[th.busy.x].place == Replying(a) && s.txns[th.busy.x].from.Some? then
        HandOver(LetGo(s, a), th.busy.x)
      else s
    case Exit(a) => if Alive(s, a) && th.busy == Idle && !th.waiting then Die(s, a) else s
    case DropItem(a) =>
      if !th.dead || th.todo == [] then s
      else if !th.todo[0].Call? then WithTodo(s, a, th.todo[1..])
      else if th.todo[0].x in s.txns then DropOwn(s, a)
      else s
    case Sleep(a) => if Available(th) then WithWaiting(s, a, true) else s
    case Awake(a) => WithWaiting(s, a, false)
    case _ => s
  }

  /** What the events of others do, one after the other. */
  function Effects(s: State, es: seq<Event>, me: Who, mine: Option<Xid>): State {
    if es == [] then s
    else
      var before := Effects(s, es[..|es| - 1], me, mine);
      if Foreign(es[|es| - 1], me, mine) then Effect(before, es[|es| - 1]) else before
  }

  /** Others neither act for `me` nor fail the call that is being failed here. */
  predicate Foreign(e: Event, me: Who, mine: Option<Xid>) {
    && (Actor(e) == OfNobody || Actor(e) != me)
    && (Subject(e) == None || Subject(e) != mine)
  }

  /** What is carried from one region to the next is as it was left. */
  ghost predicate Undisturbed(s: State, s': State, me: Who, mine: Option<Xid>) {
    && (me.OfThread? && me.a in s.threads ==>
          && me.a in s'.threads && ThreadKept(s.threads[me.a], s'.threads[me.a], false)
          && forall y :: y in s.txns && Held(s.txns[y].place, me.a) ==> y in s'.txns && s'.txns[y].place == s.txns[y].place)
    && (mine.Some? && mine.value in s.txns && s.txns[mine.value].place == Failing ==>
          mine.value in s'.txns && s'.txns[mine.value].place == Failing)
    && s.deadProcs <= s'.deadProcs
    && (forall p :: p in s.procTodo ==> p in s'.procTodo && (p in s.deadProcs ==> |s'.procTodo[p]| <= |s.procTodo[p]|))
  }

  lemma UndisturbedRefl(s: State, me: Who, mine: Option<Xid>)
    ensures Undisturbed(s, s, me, mine)
  {
  }

  lemma UndisturbedStep(s: State, s1: State, s2: State, me: Who, mine: Option<Xid>, who: Who, x: Option<Xid>)
    requires Undisturbed(s, s1, me, mine) && Stable(s1, s2, who, x) && (who == OfNobody || who != me) && (x == None || x != mine)
    ensures Undisturbed(s, s2, me, mine)
  {
    if me.OfThread? && me.a in s.threads {
      assert ThreadKept(s1.threads[me.a], s2.threads[me.a], who == OfThread(me.a));
      forall y | y in s.txns && Held(s.txns[y].place, me.a) ensures y in s2.txns && s2.txns[y].place == s.txns[y].place {
        assert y in s1.txns && Held(s1.txns[y].place, me.a);
      }
    }
    forall p | p in s.procTodo ensures p in s2.procTodo && (p in s.deadProcs ==> |s2.procTodo[p]| <= |s.procTodo[p]|) {
      assert p in s1.procTodo;
    }
  }

  type Env = nat -> seq<Event>

  /** Nothing happens in between. */
  ghost predicate Quiet(env: Env) {
    forall k :: env(k) == []
  }

  /** The calls that a failed reply ended, in order: each once, each made for the next; the callers of all but the last
      were gone, and the last one's caller was told unless there is none. */
  ghost predicate ChainEnded(g0: History, g: History, walked: seq<Xid>) {
    && walked != []
    && (forall i :: 0 <= i < |walked| ==> walked[i] in g.ended && walked[i] !in g0.ended && walked[i] in g.parent)
    && (forall i :: 0 <= i < |walked| - 1 ==> g.ended[walked[i]] == CallerGone && g.parent[walked[i]] == Some(walked[i + 1]) && walked[i + 1] < walked[i])
    && var z := walked[|walked| - 1];
       g.ended[z] == ErrorToCaller || (g.ended[z] == CallerGone && g.parent[z] == None)
  }

  /** The caller knows: it finds an error instead of a reply, and its stack is as it was before that call. */
  ghost predicate CallerTold(s: State, b: Tid, top: Option<Xid>) {
    b in s.threads && ReplyError in s.threads[b].todo && s.threads[b].stack == top
  }

  class Driver {
    var st: State
    var bug: bool          // a BUG_ON, a WARN_ON on a waiting thread, or the bad-target-stack branch was reached
    ghost var g: History

    ghost predicate Valid()
      reads this
    {
      Inv(st, g) && !bug
    }

    constructor ()
      ensures Valid() && st == State(map[], map[], map[], {}, 0) && g == History(map[], map[], map[])
    {
      st, bug, g := State(map[], map[], map[], {}, 0), false, History(map[], map[], map[]);
    }

    /** binder_send_failed_reply, one round. */
    method FailOnce(x: Xid) returns (next: Option<Xid>)
      requires Valid() && x in st.txns && st.txns[x].place == Failing
      modifies this
      ensures Valid()
      ensures next.Some? ==> next.value < x && next.value in st.txns && st.txns[next.value].place == Failing
                             && old(st).txns[x].from == None && st == WithoutOrphan(old(st), x) && next == old(st).txns[x].fromParent
      ensures next == None ==> st == Fail(old(st), x)
      // The sender, if there is one, gets its stack back and an error, once; otherwise the parent is next to fail.
      ensures old(st).txns[x].from.Some? ==>
                var a := old(st).txns[x].from.value;
                && a in old(st).threads
                && var th := old(st).threads[a];
                   st == old(st).(txns := old(st).txns - {x},
                                  threads := old(st).threads[a := th.(stack := old(st).txns[x].fromParent,
                                                                      todo := if ReplyError in th.todo then th.todo else th.todo + [ReplyError])])
      ensures old(st).txns[x].from == None ==>
                match old(st).txns[x].fromParent
                case None => st == old(st).(txns := old(st).txns - {x})
                case Some(u) => u in old(st).txns && u != x && st == old(st).(txns := (old(st).txns - {x})[u := old(st).txns[u].(place := Failing)])
      ensures g.ended == old(g).ended[x := if old(st).txns[x].from.Some? then ErrorToCaller else CallerGone]
      ensures x !in old(g).ended && g.parent == old(g).parent && x in g.parent
      ensures old(st).txns[x].from == None ==> g.parent[x] == next
      ensures old(st).txns[x].from.Some? ==> CallerTold(st, old(st).txns[x].from.value, g.parent[x])
      ensures Stable(old(st), st, OfNobody, Some(x))
    {
      hide Inv, WithoutTop, WithoutOrphan, Stable;
      if st.txns[x].from == None && st.txns[x].fromParent.Some? { ParentWasOrphan(st, g, x); }
      ParentBelow(st, g, x);
      FailIs(st, x);
      NotEnded(st, g, x);
      ParentKnown(st, g, x);
      if st.txns[x].from.Some? { FailingFacts(st, g, x); WithoutTopStable(st, g, x); } else { WithoutOrphanStable(st, g, x); }
      ghost var s0 := st;
      var t := st.txns[x];
      if t.from.Some? {
        var a := t.from.value;
        WithoutTopInv(st, g, x, ErrorToCaller);
        FailingFacts(st, g, x);
        bug := bug || st.threads[a].stack != Some(x) || t.from != Some(a);   // binder_pop_transaction_ilocked
        WithoutTopFrame(st, x);
        NotWaiting(st, g, a);
        st, g := WithoutTop(st, x), PopHistory(g, a, x, ErrorToCaller);
        if ReplyError !in st.threads[a].todo {
          bug := bug || st.threads[a].waiting;
          AppendInv(st, g, a, ReplyError);
          TodoStable(st, a, st.threads[a].todo + [ReplyError]);
          assert !st.threads[a].dead by { assert Alive(s0, a); WithoutTopAlive(s0, x); }
          StableMore(st, WithTodo(st, a, st.threads[a].todo + [ReplyError]), OfNobody, Some(x));
          StableTrans(s0, st, WithTodo(st, a, st.threads[a].todo + [ReplyError]), OfNobody, Some(x));
          st := WithTodo(st, a, st.threads[a].todo + [ReplyError]);
        }
        return None;
      }
      WithoutOrphanInv(st, g, x, CallerGone);
      if t.fromParent.Some? { OrphanFails(st, x); }
      st, g := WithoutOrphan(st, x), EndHistory(g, x, CallerGone);
      return t.fromParent;
    }

    /** Appends a work item that is not a call to a thread's list. */
    method Append(a: Tid, w: Work)
      requires Valid() && a in st.threads && !st.threads[a].waiting && !w.Call?
      modifies this`st, this`bug
      ensures Valid() && st == AddTodo(old(st), a, w) && Stable(old(st), st, OfThread(a), None)
      ensures st == old(st).(threads := old(st).threads[a := old(st).threads[a].(todo := old(st).threads[a].todo + [w])])
    {
      hide Inv, Stable;
      AppendInv(st, g, a, w);
      TodoStable(st, a, st.threads[a].todo + [w]);
      bug := bug || st.threads[a].waiting;
      st := WithTodo(st, a, st.threads[a].todo + [w]);
    }

    method Remove(a: Tid, w: Work)
      requires Valid() && a in st.threads && !st.threads[a].waiting && !w.Call?
      modifies this`st
      ensures Valid() && st == DropTodo(old(st), a, w) && Stable(old(st), st, OfThread(a), None)
      ensures a in st.threads && FirstGone(old(st).threads[a].todo, st.threads[a].todo, w)
      ensures st == old(st).(threads := old(st).threads[a := old(st).threads[a].(todo := st.threads[a].todo)])
    {
      hide Inv, Stable;
      WithoutIs(st.threads[a].todo, w);
      RemoveInv(st, g, a, w);
      TodoStable(st, a, Without(st.threads[a].todo, w));
      st := WithTodo(st, a, Without(st.threads[a].todo, w));
    }

    // ---- Sending, region by region ----

    /** The checks and the target search of a synchronous send from thread a to process p. `permitted` is the answer of the
        security hook. */
    method PlanSend(a: Tid, p: Pid, permitted: bool) returns (ok: bool)
      requires Valid() && a in st.threads && Free(st.threads[a]) && p in st.procTodo
      modifies this`st
      ensures Valid()
      ensures var th := old(st).threads[a];
              ok <==> && p != th.proc && permitted && (th.todo != [] ==> !th.todo[0].Call? && !th.todo[0].Async? && !th.todo[0].Reply?)
                      && (th.stack.Some? ==> th.stack.value in old(st).txns && old(st).txns[th.stack.value].toThread == Some(a))
      ensures ok <==> p != old(st).threads[a].proc && permitted && old(SendAllowed(st, a))
      ensures st == if ok then WithPlan(old(st), a, p) else old(st)
      // The target is the nearest caller from p up the chain of calls, and there is one if there is such a caller.
      ensures ok ==>
                && a in st.threads && st.threads[a].busy.Planning? && st.threads[a].busy.toProc == p
                && st == old(st).(threads := old(st).threads[a := old(st).threads[a].(busy := st.threads[a].busy)])
                && match old(st).threads[a].stack
                   case None => st.threads[a].busy.target == None
                   case Some(x) => Nearest(old(st), old(g), x, p, st.threads[a].busy.target)
      ensures Stable(old(st), st, OfThread(a), None)
    {
      hide Inv, FindCaller, Nearest, Stable;
      StableRefl(st, OfThread(a), None);
      PlanStable(st, a, p);
      var th := st.threads[a];
      if p == th.proc || !permitted { return false; }
      if th.todo != [] && IsTransaction(th.todo[0]) { return false; }
      if th.stack.Some? {
        TopServed(st, g, a);
        if st.txns[th.stack.value].toThread != Some(a) { return false; }
      }
      var target: Option<Tid> := None;
      var tmp := th.stack;
      while tmp.Some?
        invariant tmp.Some? ==> tmp.value in st.txns
        invariant st == old(st) && target == None && FindCaller(st, tmp, p) == FindCaller(st, th.stack, p)
        decreases if tmp.Some? then tmp.value + 1 else 0
      {
        var t := st.txns[tmp.value];
        FindCallerUnfold(st, g, tmp.value, p);
        if t.from.Some? && st.threads[t.from.value].proc == p {
          target := t.from;
          break;
        }
        tmp := t.fromParent;
      }
      if target == None { FindCallerNone(st, p); }
      if th.stack.Some? { FindCallerNearest(st, g, th.stack.value, p); }
      FindCallerNone(st, p);
      WithPlanInv(st, g, a, p);
      st := SetThread(st, a, th.(busy := Planning(p, target)));
      return true;
    }

    /** The send fails before anything was pushed. */
    method AbandonSend(a: Tid)
      requires Valid() && a in st.threads && st.threads[a].busy.Planning?
      modifies this`st
      ensures Valid() && st == WithIdle(old(st), a) && Stable(old(st), st, OfThread(a), None)
      ensures st == old(st).(threads := old(st).threads[a := old(st).threads[a].(busy := Idle)])
    {
      hide Inv, Stable;
      PlanStable(st, a, 0);
      WithIdleInv(st, g, a);
      st := WithIdle(st, a);
    }

    /** The new transaction goes on top of the sender's stack. */
    method PushSend(a: Tid) returns (x: Xid)
      requires Valid() && a in st.threads && st.threads[a].busy.Planning?
      modifies this`st, this`g
      ensures Valid() && x == old(st).nextId && st == WithPush(old(st), a) && g.ended == old(g).ended && HistoryKept(old(g), g)
      ensures var th := old(st).threads[a];
              && x !in old(st).txns
              && st == old(st).(nextId := x + 1,
                                txns := old(st).txns[x := Txn(Some(a), th.stack, Some(th.busy.toProc), th.busy.target, None, Sending(a))],
                                threads := old(st).threads[a := th.(stack := Some(x), todo := th.todo + [Complete(x)], busy := Holding(x))])
      ensures Stable(old(st), st, OfThread(a), None)
    {
      hide Inv, Stable;
      PushStable(st, g, a);
      BusyAlive(st, g, a);
      PushFacts(st, g, a);
      WithPushInv(st, g, a);
      x := st.nextId;
      st, g := WithPush(st, a), PushHistory(st, g, a);
    }

    /** binder_proc_transaction; `pick` is the head of the target process's list of waiting threads. */
    method ProcTransaction(a: Tid, pick: Option<Tid>) returns (queued: bool)
      requires Valid() && IsSending(st, a)
      requires pick.Some? ==> pick.value in st.threads && st.threads[pick.value].waiting
                              && Some(st.threads[pick.value].proc) == st.txns[st.threads[a].busy.x].toProc
      modifies this`st, this`bug
      ensures Valid() && (!queued ==> st == old(st)) && Stable(old(st), st, OfThread(a), None)
      ensures var t := old(st).txns[old(st).threads[a].busy.x];
              && t.toProc.Some? && t.toProc.value in old(st).procTodo
              && (queued <==> t.toProc.value !in old(st).deadProcs && (t.toThread.Some? ==> Alive(old(st), t.toThread.value)))
              && (queued ==> st == match if t.toThread.Some? then t.toThread else pick
                                   case Some(c) => QueueAt(old(st), a, c)
                                   case None => QueueProc(old(st), a, t.toProc.value))
      // Queued last, for the thread aimed at, or picked, or for the process; the sender is done.
      ensures var x, t := old(st).threads[a].busy.x, old(st).txns[old(st).threads[a].busy.x];
              queued ==>
                match if t.toThread.Some? then t.toThread else pick
                case Some(c) =>
                  && c in old(st).threads && c != a
                  && st == old(st).(txns := old(st).txns[x := t.(place := QueuedAt(c))],
                                    threads := old(st).threads[a := old(st).threads[a].(busy := Idle)]
                                                              [c := old(st).threads[c].(todo := old(st).threads[c].todo + [Call(x)], waiting := false)])
                case None =>
                  var p := t.toProc.value;
                  st == old(st).(txns := old(st).txns[x := t.(place := QueuedProc(p))],
                                 threads := old(st).threads[a := old(st).threads[a].(busy := Idle)],
                                 procTodo := old(st).procTodo[p := old(st).procTodo[p] + [x]])
    {
      hide Inv, Stable;
      StableRefl(st, OfThread(a), None);
      var x := st.threads[a].busy.x;
      var t := st.txns[x];
      SendingAt(st, g, a);
      if t.toProc.value in st.deadProcs || (t.toThread.Some? && st.threads[t.toThread.value].dead) { return false; }
      var thread := if t.toThread.Some? then t.toThread else pick;
      if thread.Some? {
        var c := thread.value;
        WaitingAlive(st, g, c);
        QueueAtInv(st, g, a, c);
        ServerFacts(st, g, a, c);
        QueueAtStable(st, a, c);
        bug := bug || (t.toThread.Some? && st.threads[c].waiting);
        st := QueueAt(st, a, c);
      } else {
        QueueProcInv(st, g, a, t.toProc.value);
        QueueProcStable(st, a, t.toProc.value);
        st := QueueProc(st, a, t.toProc.value);
      }
      return true;
    }

    /** The target was dead: the transaction is popped again and ends unsent. */
    method UndoPop(a: Tid)
      requires Valid() && IsSending(st, a)
      modifies this
      ensures Valid() && g.ended == old(g).ended[old(st).threads[a].busy.x := NotSent] && HistoryKept(old(g), g)
      ensures var x := old(st).threads[a].busy.x;
              && x in old(st).txns && x !in old(g).ended
              && st == old(st).(txns := old(st).txns - {x},
                                threads := old(st).threads[a := old(st).threads[a].(stack := old(st).txns[x].fromParent, busy := Idle)])
      ensures Stable(old(st), st, OfThread(a), None)
    {
      hide Inv, Stable;
      var x := st.threads[a].busy.x;
      ghost var s0 := st;
      NotEnded(st, g, x);
      SendingAt(st, g, a);
      UnholdInv(st, g, a);
      UnholdStable(st, a);
      st := Unhold(st, a);
      ghost var s1 := st;
      FailingFacts(st, g, x);
      bug := bug || st.threads[a].stack != Some(x) || st.txns[x].from != Some(a);   // binder_pop_transaction_ilocked
      WithoutTopInv(st, g, x, NotSent);
      WithoutTopStable(st, g, x);
      st, g := WithoutTop(st, x), PopHistory(g, a, x, NotSent);
      StableMore(s0, s1, OfThread(a), Some(x));
      StableMore(s1, st, OfThread(a), Some(x));
      StableTrans(s0, s1, st, OfThread(a), Some(x));
      StableLess(s0, st, OfThread(a), x);
    }

    // ---- Delivery, region by region ----

    /** The head of a thread's own list: a call is taken in hand, anything else is reported and gone. */
    method ReadOwn(a: Tid)
      requires Valid() && a in st.threads && Free(st.threads[a]) && st.threads[a].todo != []
      modifies this`st
      ensures Valid() && Stable(old(st), st, OfThread(a), None)
      ensures var w := old(st).threads[a].todo[0];
              if w.Call? then w.x in old(st).txns && st == TakeOwn(old(st), a) else st == WithTodo(old(st), a, old(st).threads[a].todo[1..])
      // The head leaves the list; a call is in the thread's hands then.
      ensures var th := old(st).threads[a]; var w := th.todo[0];
              if w.Call? then
                st == old(st).(txns := old(st).txns[w.x := old(st).txns[w.x].(place := Taken(a))],
                               threads := old(st).threads[a := th.(todo := th.todo[1..], busy := Holding(w.x))])
              else st == old(st).(threads := old(st).threads[a := th.(todo := th.todo[1..])])
    {
      hide Inv, Stable;
      if st.threads[a].todo[0].Call? {
        TakeOwnInv(st, g, a);
        TakeOwnStable(st, g, a);
        st := TakeOwn(st, a);
      } else {
        DropHeadInv(st, g, a);
        TodoStable(st, a, st.threads[a].todo[1..]);
        st := WithTodo(st, a, st.threads[a].todo[1..]);
      }
    }

    /** The next call on the process's list, for a thread without work of its own. */
    method ReadProc(a: Tid)
      requires Valid() && ProcCall(st, a)
      modifies this`st
      ensures Valid() && Stable(old(st), st, OfThread(a), None)
      ensures old(st).procTodo[old(st).threads[a].proc][0] in old(st).txns && st == TakeProc(old(st), a)
      ensures var p := old(st).threads[a].proc; var x := old(st).procTodo[p][0];
              st == old(st).(txns := old(st).txns[x := old(st).txns[x].(place := Taken(a))],
                             threads := old(st).threads[a := old(st).threads[a].(busy := Holding(x))],
                             procTodo := old(st).procTodo[p := old(st).procTodo[p][1..]])
    {
      hide Inv, Stable;
      TakeProcInv(st, g, a);
      TakeProcStable(st, g, a);
      st := TakeProc(st, a);
    }

    /** A call in hand goes on top of the stack of the thread that read it. */
    method StackUp(a: Tid)
      requires Valid() && IsTaken(st, a)
      modifies this
      ensures Valid() && st == Accept(old(st), a) && g.ended == old(g).ended && HistoryKept(old(g), g) && Stable(old(st), st, OfThread(a), None)
      ensures var th := old(st).threads[a]; var x := th.busy.x;
              st == old(st).(txns := old(st).txns[x := old(st).txns[x].(toParent := th.stack, toThread := Some(a), place := Delivered(a))],
                             threads := old(st).threads[a := th.(stack := Some(x), busy := Idle)])
    {
      hide Inv, Stable;
      AcceptInv(st, g, a);
      AcceptStable(st, a);
      st, g := Accept(st, a), AcceptHistory(st, g, a);
    }

    /** A call in hand that cannot be delivered, or not be answered, starts to fail. */
    method LetFail(a: Tid)
      requires Valid() && a in st.threads && st.threads[a].busy.Holding? && st.threads[a].busy.x in st.txns
      requires st.txns[st.threads[a].busy.x].place in {Taken(a), Replying(a)}
      modifies this`st
      ensures Valid() && st == LetGo(old(st), a) && st.txns[old(st).threads[a].busy.x].place == Failing
      ensures var x := old(st).threads[a].busy.x;
              st == old(st).(txns := old(st).txns[x := old(st).txns[x].(place := Failing)],
                             threads := old(st).threads[a := old(st).threads[a].(busy := Idle)])
      ensures Stable(old(st), st, OfThread(a), None)
    {
      hide Inv, Stable;
      UnholdInv(st, g, a);
      UnholdStable(st, a);
      st := Unhold(st, a);
    }

    // ---- Replying, region by region ----

    /** The replying thread takes the call off its stack. */
    method PopReply(a: Tid)
      requires Valid() && IsServing(st, a)
      modifies this
      ensures Valid() && st == ReplyPop(old(st), a) && g.ended == old(g).ended && HistoryKept(old(g), g) && Stable(old(st), st, OfThread(a), None)
      ensures var th := old(st).threads[a]; var x := th.stack.value; var live := old(st).txns[x].from.Some?;
              st == old(st).(txns := old(st).txns[x := old(st).txns[x].(place := if live then Replying(a) else Failing)],
                             threads := old(st).threads[a := th.(stack := old(st).txns[x].toParent, busy := if live then Holding(x) else Idle)])
    {
      hide Inv, Stable;
      ServingFacts(st, g, a);
      ReplyPopInv(st, g, a);
      ReplyPopStable(st, g, a);
      st, g := ReplyPop(st, a), ReplyHistory(g, a);
    }

    /** The caller lives: the call ends, and the reply goes to the caller. */
    method HandReply(a: Tid)
      requires Valid() && a in st.threads && st.threads[a].busy.Holding? && st.threads[a].busy.x in st.txns
      requires st.txns[st.threads[a].busy.x].place == Replying(a) && st.txns[st.threads[a].busy.x].from.Some?
      modifies this
      ensures var x := old(st).threads[a].busy.x;
              && Valid() && x !in old(g).ended && g.ended == old(g).ended[x := Replied] && HistoryKept(old(g), g)
              && st == HandOver(LetGo(old(st), a), x) && x !in st.txns
              && var from := old(st).txns[x].from.value;
                 var ths := old(st).threads[a := old(st).threads[a].(busy := Idle)];
                 && from in ths
                 && st == old(st).(txns := old(st).txns - {x},
                                   threads := ths[from := ths[from].(stack := old(st).txns[x].fromParent, todo := ths[from].todo + [Reply(x)])])
      ensures Stable(old(st), st, OfThread(a), None)
    {
      hide Inv, Unclaimed, Childless, Stable;
      var x := st.threads[a].busy.x;
      ghost var s0 := st;
      NotEnded(st, g, x);
      UnholdInv(st, g, a);
      UnholdStable(st, a);
      st := Unhold(st, a);
      ghost var s1 := st;
      var target := st.txns[x].from.value;
      FailingFacts(st, g, x);
      NotWaiting(st, g, target);
      bug := bug || st.threads[target].stack != Some(x);   // binder_pop_transaction_ilocked
      WithoutTopInv(st, g, x, Replied);
      WithoutTopStable(st, g, x);
      WithoutTopFrame(st, x);
      st, g := WithoutTop(st, x), PopHistory(g, target, x, Replied);
      ghost var s2 := st;
      AppendInv(st, g, target, Reply(x));
      TodoStable(st, target, st.threads[target].todo + [Reply(x)]);
      st := WithTodo(st, target, st.threads[target].todo + [Reply(x)]);
      HandIs(s0, a);
      HandStable(s0, s1, s2, st, a, x);
    }

    // ---- Dying, region by region ----

    /** The walk of binder_thread_release over the stack of a dying thread. */
    method ReleaseStack(a: Tid) returns (sendReply: Option<Xid>)
      requires Valid() && Alive(st, a) && st.threads[a].busy == Idle && !st.threads[a].waiting
      modifies this
      ensures Valid() && st == Die(old(st), a) && g.ended == old(g).ended && HistoryKept(old(g), g) && Stable(old(st), st, OfThread(a), None)
      ensures sendReply == if old(IsServing(st, a)) then old(st).threads[a].stack else None
      // Calls the thread served lose their server, and the one on top fails; calls it made lose their caller.
      ensures st.threads == old(st).threads[a := old(st).threads[a].(stack := None, dead := true)]
      ensures st.procTodo == old(st).procTodo && st.deadProcs == old(st).deadProcs && st.nextId == old(st).nextId && st.txns.Keys == old(st).txns.Keys
      ensures forall y :: y in st.txns ==>
                var t := old(st).txns[y];
                st.txns[y] == if t.place == Delivered(a) then
                                t.(toProc := None, toThread := None, place := if old(st).threads[a].stack == Some(y) then Failing else Orphan)
                              else if t.from == Some(a) then t.(from := None)
                              else t
      ensures sendReply.Some? ==> sendReply.value in st.txns && st.txns[sendReply.value].place == Failing
    {
      hide Inv, Walked, Bereft, Link, Stable;
      DieStable(st, a);
      ghost var s0 := st;
      StackOf(st, g, a);
      var t := st.threads[a].stack;
      sendReply := None;
      if t.Some? {
        TopServed(st, g, a);
        if st.txns[t.value].toThread == Some(a) { sendReply := t; }
      }
      var txns := st.txns;
      ghost var stk, k := g.stk[a], 0;
      WalkStart(st, a, stk);
      StackEnd(stk);
      while t.Some?
        invariant 0 <= k <= |stk| && t == Head(stk[k..])
        invariant Walked(s0, txns, a, stk, k)
        invariant st == s0 && g == old(g) && !bug
        decreases |stk| - k
      {
        var x := t.value;
        HeadIs(stk, k);
        WalkAt(s0, g, a, k);
        WalkStep(s0, txns, a, stk, k);
        var served, own := txns[x].toThread == Some(a), txns[x].from == Some(a);
        t := if served then txns[x].toParent else txns[x].fromParent;
        bug := bug || (!served && !own);
        txns := txns[x := Bereft(txns[x], a, st.threads[a].stack == Some(x))];
        k := k + 1;
      }
      TailEmpty(stk, k);
      WalkEnd(st, g, txns, a);
      DieIs(st, a);
      DieInv(st, g, a);
      if sendReply.Some? { DieTop(st, g, a); }
      st, g := SetThread(st, a, st.threads[a].(stack := None, dead := true)).(txns := txns), DieHistory(g, a);
    }

    /** One item of a dead thread's list: a call starts to fail, anything else goes. */
    method ReleaseItem(a: Tid) returns (x: Option<Xid>)
      requires Valid() && a in st.threads && st.threads[a].dead && st.threads[a].todo != []
      modifies this`st
      ensures Valid() && Stable(old(st), st, OfThread(a), None)
      ensures a in st.threads && st.threads[a] == old(st).threads[a].(todo := old(st).threads[a].todo[1..])
      ensures var w := old(st).threads[a].todo[0];
              if w.Call? then x == Some(w.x) && w.x in old(st).txns && st == DropOwn(old(st), a) && w.x in st.txns && st.txns[w.x].place == Failing
              else x == None && st == WithTodo(old(st), a, old(st).threads[a].todo[1..])
      ensures st == old(st).(txns := if x.Some? && x.value in old(st).txns then old(st).txns[x.value := old(st).txns[x.value].(place := Failing)] else old(st).txns,
                             threads := old(st).threads[a := old(st).threads[a].(todo := old(st).threads[a].todo[1..])])
    {
      hide Inv, Stable;
      DeadNotWaiting(st, g, a);
      if st.threads[a].todo[0].Call? {
        x := Some(st.threads[a].todo[0].x);
        DropOwnInv(st, g, a);
        DropOwnStable(st, g, a);
        st := DropOwn(st, a);
      } else {
        x := None;
        DropHeadInv(st, g, a);
        TodoStable(st, a, st.threads[a].todo[1..]);
        st := WithTodo(st, a, st.threads[a].todo[1..]);
      }
    }

    /** One call of a dead process's list starts to fail. */
    method ReleaseProcItem(p: Pid) returns (x: Xid)
      requires Valid() && p in st.procTodo && p in st.deadProcs && st.procTodo[p] != []
      modifies this`st
      ensures Valid() && Stable(old(st), st, OfNobody, None)
      ensures x == old(st).procTodo[p][0] && x in old(st).txns && st == DropProc(old(st), p) && x in st.txns && st.txns[x].place == Failing
      ensures p in st.procTodo && st.procTodo[p] == old(st).procTodo[p][1..]
      ensures st == old(st).(txns := old(st).txns[x := old(st).txns[x].(place := Failing)],
                             procTodo := old(st).procTodo[p := old(st).procTodo[p][1..]])
    {
      hide Inv, Stable;
      x := st.procTodo[p][0];
      DropProcInv(st, g, p);
      DropProcStable(st, g, p);
      st := DropProc(st, p);
    }

    // ---- Threads and processes ----

    method Wait(a: Tid)
      requires Valid() && a in st.threads && Available(st.threads[a])
      modifies this`st
      ensures Valid() && st == WithWaiting(old(st), a, true) && Stable(old(st), st, OfThread(a), None)
      ensures st == old(st).(threads := old(st).threads[a := old(st).threads[a].(waiting := true)])
    {
      hide Inv, Stable;
      WithWaitingInv(st, g, a, true);
      WaitingStable(st, a, true);
      st := WithWaiting(st, a, true);
    }

    method Wake(a: Tid)
      requires Valid() && a in st.threads
      modifies this`st
      ensures Valid() && st == WithWaiting(old(st), a, false) && Stable(old(st), st, OfThread(a), None)
      ensures st == old(st).(threads := old(st).threads[a := old(st).threads[a].(waiting := false)])
    {
      hide Inv, Stable;
      WithWaitingInv(st, g, a, false);
      WaitingStable(st, a, false);
      st := WithWaiting(st, a, false);
    }

    method AddThread(a: Tid, p: Pid)
      requires Valid() && a !in st.threads && p in st.procTodo
      modifies this
      ensures st == old(st).(threads := old(st).threads[a := Thread(p, None, false, false, [], Idle)])
      ensures Valid() && st == NewThread(old(st), a, p) && g.ended == old(g).ended && HistoryKept(old(g), g) && Stable(old(st), st, OfNobody, None)
    {
      hide Inv, Stable;
      NewStable(st, a, p);
      NewThreadInv(st, g, a, p);
      st, g := NewThread(st, a, p), DieHistory(g, a);
    }

    method AddProc(p: Pid)
      requires Valid() && p !in st.procTodo
      modifies this`st
      ensures Valid() && st == old(st).(procTodo := old(st).procTodo[p := []]) && Stable(old(st), st, OfNobody, None)
    {
      hide Inv, Stable;
      NewStable(st, 0, p);
      NewProcInv(st, g, p);
      st := st.(procTodo := st.procTodo[p := []]);
    }

    method KillProc(p: Pid)
      requires Valid() && p in st.procTodo
      modifies this`st
      ensures Valid() && st == old(st).(deadProcs := old(st).deadProcs + {p}) && Stable(old(st), st, OfNobody, None)
    {
      hide Inv, Stable;
      NewStable(st, 0, p);
      KillProcInv(st, g, p);
      st := st.(deadProcs := st.deadProcs + {p});
    }

    // ---- The environment ----

    /** One region of somebody's operation, if it can run. */
    method Apply(e: Event)
      requires Valid()
      modifies this
      ensures Valid() && HistoryKept(old(g), g)
      ensures Stable(old(st), st, Actor(e), Subject(e)) && st == Effect(old(st), e)
    {
      hide Inv, Stable, SendAllowed, Fail, WithoutOrphan, DropProc, NewThread, ThreadEffect;
      StableRefl(st, Actor(e), Subject(e));
      match e {
        case Round(x) => if x in st.txns && st.txns[x].place == Failing { FailIs(st, x); var next := FailOnce(x); }
        case DropProcItem(p) => if p in st.procTodo && p in st.deadProcs && st.procTodo[p] != [] { var x := ReleaseProcItem(p); }
        case Fork(a, p) => if a !in st.threads && p in st.procTodo { AddThread(a, p); }
        case Open(p) => if p !in st.procTodo { AddProc(p); }
        case Kill(p) => if p in st.procTodo { KillProc(p); }
        case _ => if e.a in st.threads { ApplyThread(e); }
      }
    }

    method ApplyThread(e: Event)
      requires Valid() && Actor(e).OfThread? && e.a in st.threads
      modifies this
      ensures Valid() && HistoryKept(old(g), g)
      ensures Stable(old(st), st, OfThread(e.a), None) && st == ThreadEffect(old(st), e)
    {
      hide Inv, Stable, SendAllowed, WithPlan, WithPush, QueueAt, QueueProc, AddTodo, DropTodo, MoreEffect;
      StableRefl(st, OfThread(e.a), None);
      var th := st.threads[e.a];
      if e.Plan? {
        if Free(th) && e.p in st.procTodo { var ok := PlanSend(e.a, e.p, e.permitted); }
      } else if e.Abandon? {
        if th.busy.Planning? { AbandonSend(e.a); }
      } else if e.Push? {
        if th.busy.Planning? { var x := PushSend(e.a); }
      } else if e.Queue? {
        if IsSending(st, e.a) && (e.pick.Some? ==> e.pick.value in st.threads && st.threads[e.pick.value].waiting
                                                   && Some(st.threads[e.pick.value].proc) == st.txns[th.busy.x].toProc) {
          if e.pick.Some? { WaitingAlive(st, g, e.pick.value); }
          var queued := ProcTransaction(e.a, e.pick);
        }
      } else if e.Undo? {
        if IsSending(st, e.a) { UndoPop(e.a); }
      } else if e.Note? {
        if !th.waiting && !e.w.Call? { Append(e.a, e.w); }
      } else if e.Unnote? {
        if !th.waiting && !e.w.Call? { Remove(e.a, e.w); }
      } else {
        ApplyMore(e);
      }
    }

    method ApplyMore(e: Event)
      requires Valid() && Actor(e).OfThread? && e.a in st.threads
      modifies this
      ensures Valid() && HistoryKept(old(g), g)
      ensures Stable(old(st), st, OfThread(e.a), None) && (!(e.Plan? || e.Abandon? || e.Push? || e.Queue? || e.Undo? || e.Note? || e.Unnote?) ==> st == MoreEffect(old(st), e))
    {
      hide Inv, Stable, SendAllowed, TakeOwn, TakeProc, Accept, LetGo, ReplyPop, HandOver, Die, DropOwn;
      StableRefl(st, OfThread(e.a), None);
      var th := st.threads[e.a];
      match e {
        case FetchOwn(a) => if Free(th) && th.todo != [] { ReadOwn(a); }
        case FetchProc(a) => if ProcCall(st, a) { ReadProc(a); }
        case PutOnStack(a) => if IsTaken(st, a) { StackUp(a); }
        case GiveUp(a) =>
          if th.busy.Holding? && th.busy.x in st.txns && st.txns[th.busy.x].place in {Taken(a), Replying(a)} { LetFail(a); }
        case Pop(a) => if IsServing(st, a) { PopReply(a); }
        case Hand(a) =>
          if th.busy.Holding? && th.busy.x in st.txns && st.txns[th.busy.x].place == Replying(a) && st.txns[th.busy.x].from.Some? { HandReply(a); }
        case Exit(a) => if Alive(st, a) && th.busy == Idle && !th.waiting { var reply := ReleaseStack(a); }
        case DropItem(a) => if th.dead && th.todo != [] { var x := ReleaseItem(a); }
        case Sleep(a) => if Available(th) { Wait(a); }
        case Awake(a) => Wake(a);
        case _ =>
      }
    }

    /** Whatever others do between two regions of an operation of `me` that is failing `mine`. */
    method Others(es: seq<Event>, me: Who, mine: Option<Xid>)
      requires Valid()
      modifies this
      ensures Valid() && HistoryKept(old(g), g) && Undisturbed(old(st), st, me, mine)
      ensures st == Effects(old(st), es, me, mine)
      ensures es == [] ==> st == old(st) && g == old(g)
    {
      hide Inv, Stable, Undisturbed, Foreign, Effect;
      UndisturbedRefl(st, me, mine);
      for i := 0 to |es|
        invariant Valid() && HistoryKept(old(g), g) && Undisturbed(old(st), st, me, mine)
        invariant i == 0 ==> st == old(st) && g == old(g)
        invariant st == Effects(old(st), es[..i], me, mine)
      {
        if Foreign(es[i], me, mine) {
          ghost var s1 := st;
          Apply(es[i]);
          ForeignStep(old(st), s1, st, me, mine, es[i]);
        }
        assert es[..i + 1][..i] == es[..i];
      }
      assert es[..|es|] == es;
    }

    // ---- Operations of several regions ----

    /** binder_send_failed_reply: whatever others do in between, it ends, and it ended exactly a chain of calls, each once. */
    method SendFailedReply(x: Xid, me: Who, env: Env, k: nat) returns (next: nat, ghost walked: seq<Xid>)
      requires Valid() && x in st.txns && st.txns[x].place == Failing
      modifies this
      ensures Valid() && HistoryKept(old(g), g) && Undisturbed(old(st), st, me, None)
      ensures ChainEnded(old(g), g, walked) && walked[0] == x
      ensures var z := walked[|walked| - 1]; g.ended[z] == ErrorToCaller ==> exists b :: CallerTold(st, b, g.parent[z])
      ensures Quiet(env) ==> st == Fail(old(st), x)
    {
      hide Inv, WithoutTop, WithoutOrphan, Fail, Undisturbed, Stable, CallerTold;
      var t := x;
      next := k;
      walked := [x];
      UndisturbedRefl(st, me, None);
      while true
        invariant Valid() && t in st.txns && st.txns[t].place == Failing && Undisturbed(old(st), st, me, None)
        invariant Quiet(env) ==> Fail(st, t) == Fail(old(st), x)
        invariant HistoryKept(old(g), g) && Walking(old(g), g, walked) && walked[0] == x && walked[|walked| - 1] == t
        decreases t
      {
        ghost var before, g0 := st, g;
        var up := FailOnce(t);
        UndisturbedStep(old(st), before, st, me, None, OfNobody, Some(t));
        WalkedOn(old(g), g0, g, walked, t, up);
        if up == None { break; }
        walked := walked + [up.value];
        FailUnfold(before, t);
        t := up.value;
        ghost var s1, g1 := st, g;
        Others(env(next), me, Some(t));
        WalkingKept(old(g), g1, g, walked);
        UndisturbedMore(old(st), s1, st, me, Some(t));
        StillFailing(s1, st, me, t);
        next := next + 1;
      }
    }

    /** A synchronous send that finds its target dead. */
    method UndoSend(a: Tid, env: Env, k: nat) returns (next: nat)
      requires Valid() && IsSending(st, a)
      modifies this
      ensures Valid() && HistoryKept(old(g), g)
      ensures var x := old(st).threads[a].busy.x; x in g.ended && g.ended[x] == NotSent && x !in old(g).ended
      ensures a in st.threads && st.threads[a].busy == Idle && ReturnError in st.threads[a].todo
      ensures Quiet(env) ==>
                var x := old(st).threads[a].busy.x;
                st == old(st).(txns := old(st).txns - {x},
                               threads := old(st).threads[a := old(st).threads[a].(
                                 stack := old(st).txns[x].fromParent, busy := Idle,
                                 todo := Without(old(st).threads[a].todo, Complete(x)) + [ReturnError])])
                && FirstGone(old(st).threads[a].todo, Without(old(st).threads[a].todo, Complete(x)), Complete(x))
    {
      hide Inv, Undisturbed, Stable;
      SendingAt(st, g, a);
      BusyNotWaiting(st, g, a);
      var x := st.threads[a].busy.x;
      UndoPop(a);
      ghost var s1 := st;
      Others(env(k), OfThread(a), None);
      MeKept(s1, st, a, None);
      Remove(a, Complete(x));
      ghost var s2 := st;
      Others(env(k + 1), OfThread(a), None);
      MeKept(s2, st, a, None);
      Append(a, ReturnError);
      next := k + 2;
    }

    /** The end of a delivery: onto the stack of the thread that read the call, or, when that fails, a failed reply. */
    method Deliver(a: Tid, ok: bool, env: Env, k: nat) returns (next: nat)
      requires Valid() && IsTaken(st, a)
      modifies this
      ensures Valid() && HistoryKept(old(g), g)
      ensures ok ==> st == Accept(old(st), a) && g.ended == old(g).ended
      ensures !ok ==> var x := old(st).threads[a].busy.x; x in g.ended && x !in old(g).ended && g.ended[x] in {ErrorToCaller, CallerGone}
      ensures !ok && Quiet(env) ==> st == Fail(Unhold(old(st), a), old(st).threads[a].busy.x)
    {
      hide Inv, Fail, Undisturbed, Stable;
      next := k;
      if ok {
        StackUp(a);
      } else {
        var x := st.threads[a].busy.x;
        LetFail(a);
        ghost var s1 := st;
        Others(env(k), OfThread(a), Some(x));
        StillFailing(s1, st, OfThread(a), x);
        ghost var walked;
        next, walked := SendFailedReply(x, OfThread(a), env, k + 1);
        ChainHead(old(g), g, walked);
      }
    }

    /** The error path of a reply: the replying thread is told, and the call fails. */
    method FailReply(a: Tid, env: Env, k: nat) returns (next: nat)
      requires Valid() && a in st.threads && st.threads[a].busy.Holding? && st.threads[a].busy.x in st.txns
      requires st.txns[st.threads[a].busy.x].place == Replying(a)
      modifies this
      ensures Valid() && HistoryKept(old(g), g)
      ensures var x := old(st).threads[a].busy.x; x in g.ended && x !in old(g).ended && g.ended[x] in {ErrorToCaller, CallerGone}
      ensures Quiet(env) ==> st == Fail(LetGo(AddTodo(old(st), a, ReturnError), a), old(st).threads[a].busy.x)
    {
      hide Inv, Fail, Undisturbed, Stable;
      var x := st.threads[a].busy.x;
      NotEnded(st, g, x);
      BusyNotWaiting(st, g, a);
      Append(a, ReturnError);
      ghost var s1 := st;
      Others(env(k), OfThread(a), None);
      MeKept(s1, st, a, None);
      HeldKept(s1, st, a, x);
      LetFail(a);
      ghost var g1 := g;
      ghost var walked;
      next, walked := SendFailedReply(x, OfThread(a), env, k + 1);
      ChainHead(g1, g, walked);
    }

    /** The caller was gone before the reply began: its call, off the stack already, fails. */
    method FailDeadCaller(a: Tid, x: Xid, env: Env, k: nat) returns (next: nat)
      requires Valid() && a in st.threads && !st.threads[a].waiting && x in st.txns && st.txns[x].place == Failing
      modifies this
      ensures Valid() && HistoryKept(old(g), g) && x in g.ended && x !in old(g).ended && g.ended[x] in {ErrorToCaller, CallerGone}
      ensures Quiet(env) ==> st == Fail(AddTodo(old(st), a, ReturnError), x)
    {
      hide Inv, Fail, Undisturbed, Stable;
      NotEnded(st, g, x);
      ghost var s1 := st;
      Others(env(k), OfThread(a), Some(x));
      MeKept(s1, st, a, Some(x));
      StillFailing(s1, st, OfThread(a), x);
      ghost var s2 := st;
      Append(a, ReturnError);
      FailingAfter(s2, st, a, x);
      ghost var s3, g3 := st, g;
      Others(env(k + 1), OfThread(a), Some(x));
      StillFailing(s3, st, OfThread(a), x);
      ghost var walked;
      next, walked := SendFailedReply(x, OfThread(a), env, k + 2);
      ChainHead(g3, g, walked);
    }

    /** BC_REPLY up to the point where the caller is known: refused, answered with a failed reply because
        the caller is gone, or under way. */
    method BeginReply(a: Tid, env: Env, k: nat) returns (begun: bool, next: nat)
      requires Valid() && a in st.threads && Free(st.threads[a])
      modifies this
      ensures Valid() && HistoryKept(old(g), g)
      ensures var th := old(st).threads[a];
              old(IsServing(st, a)) <==> th.stack.Some? && th.stack.value in old(st).txns && old(st).txns[th.stack.value].toThread == Some(a)
      ensures !old(IsServing(st, a)) ==> !begun && st == AddTodo(old(st), a, ReturnError) && g == old(g)
      ensures begun ==>
                && old(IsServing(st, a)) && a in st.threads && st.threads[a].busy == Holding(old(st).threads[a].stack.value)
                && var x := old(st).threads[a].stack.value; x in st.txns && st.txns[x].place == Replying(a) && st.txns[x].from.Some?
      ensures old(IsServing(st, a)) && !begun ==>
                var x := old(st).threads[a].stack.value; x in g.ended && x !in old(g).ended && g.ended[x] in {ErrorToCaller, CallerGone}
      ensures Quiet(env) ==>
                && (begun <==> old(IsServing(st, a)) && old(st).txns[old(st).threads[a].stack.value].from.Some?)
                && (begun ==> st == ReplyPop(old(st), a))
                && (old(IsServing(st, a)) && !begun ==> st == Fail(AddTodo(ReplyPop(old(st), a), a, ReturnError), old(st).threads[a].stack.value))
    {
      hide Inv, Fail, Undisturbed, Stable;
      next := k;
      var x := st.threads[a].stack;
      if x == None {
        Append(a, ReturnError);
        return false, k;
      }
      TopServed(st, g, a);
      if st.txns[x.value].toThread != Some(a) {
        Append(a, ReturnError);
        return false, k;
      }
      NotEnded(st, g, x.value);
      PopReply(a);
      ghost var s1 := st;
      if st.threads[a].busy.Holding? {
        Others(env(k), OfThread(a), None);
        MeKept(s1, st, a, None);
        HeldKept(s1, st, a, x.value);
        if st.txns[x.value].from.Some? {
          TopOfCaller(st, g, x.value) by { ChildlessPlace(st, g, x.value); }
          bug := bug || st.threads[st.txns[x.value].from.value].stack != x;   // bad target transaction stack
          return true, k + 1;
        }
        next := FailReply(a, env, k + 1);
        return false, next;
      }
      begun := false;
      next := FailDeadCaller(a, x.value, env, k);
    }

    /** The end of a reply: handed to the caller, or, when something failed or the caller has died, a failed reply. */
    method EndReply(a: Tid, ok: bool, env: Env, k: nat) returns (next: nat)
      requires Valid() && a in st.threads && st.threads[a].busy.Holding? && st.threads[a].busy.x in st.txns
      requires st.txns[st.threads[a].busy.x].place == Replying(a)
      modifies this
      ensures Valid() && HistoryKept(old(g), g)
      ensures var x := old(st).threads[a].busy.x; x in g.ended && x !in old(g).ended && (!ok ==> g.ended[x] != Replied)
      ensures Quiet(env) ==>
                var x := old(st).threads[a].busy.x;
                var sent := if ok then AddTodo(old(st), a, Complete(x)) else old(st);
                st == if ok && old(st).txns[x].from.Some? then HandOver(LetGo(sent, a), x)
                      else Fail(LetGo(AddTodo(if ok then DropTodo(sent, a, Complete(x)) else sent, a, ReturnError), a), x)
    {
      hide Inv, Fail, Undisturbed, Stable, HandOver;
      var x := st.threads[a].busy.x;
      NotEnded(st, g, x);
      BusyNotWaiting(st, g, a);
      next := k;
      if ok {
        Append(a, Complete(x));
        ghost var s1 := st;
        Others(env(next), OfThread(a), None);
        MeKept(s1, st, a, None);
        HeldKept(s1, st, a, x);
        next := next + 1;
        if st.txns[x].from.Some? {
          HandReply(a);
          return;
        }
        Remove(a, Complete(x));
        ghost var s2 := st;
        Others(env(next), OfThread(a), None);
        MeKept(s2, st, a, None);
        HeldKept(s2, st, a, x);
        next := next + 1;
      }
      next := FailReply(a, env, next);
    }

    /** binder_release_work, one item of a dead thread's list. */
    method ReleaseOne(a: Tid, env: Env, k: nat) returns (next: nat)
      requires Valid() && a in st.threads && st.threads[a].dead && st.threads[a].todo != []
      modifies this
      ensures Valid() && HistoryKept(old(g), g) && a in st.threads && st.threads[a].dead
      ensures st.threads[a].todo == old(st).threads[a].todo[1..]
      ensures var w := old(st).threads[a].todo[0]; w.Call? ==> w.x in g.ended && w.x !in old(g).ended && g.ended[w.x] in {ErrorToCaller, CallerGone}
      ensures Quiet(env) ==> st == DrainOne(old(st), a)
    {
      hide Inv, Fail, Undisturbed, Stable;
      var x := ReleaseItem(a);
      ghost var s1, g1 := st, g;
      Others(env(k), OfThread(a), x);
      DeadKept(s1, st, a, x);
      next := k + 1;
      if x.Some? {
        StillFailing(s1, st, OfThread(a), x.value);
        NotEnded(s1, g1, x.value);
        ghost var s2, walked := st, [];
        ghost var g2 := g;
        next, walked := SendFailedReply(x.value, OfThread(a), env, next);
        DeadKept(s2, st, a, None);
        ChainHead(g2, g, walked);
      }
    }

    /** binder_release_work on the list of a dead thread: undelivered calls fail, the rest is dropped. */
    method ReleaseWork(a: Tid, env: Env, k: nat) returns (next: nat)
      requires Valid() && a in st.threads && st.threads[a].dead
      modifies this
      ensures Valid() && HistoryKept(old(g), g) && a in st.threads && st.threads[a].dead && st.threads[a].todo == []
      ensures forall y :: Call(y) in old(st).threads[a].todo ==> y in g.ended
      ensures Quiet(env) ==> st == Drained(old(st), a, |old(st).threads[a].todo|)
    {
      hide Inv, DrainOne, Drained;
      next := k;
      while st.threads[a].todo != []
        invariant Valid() && a in st.threads && st.threads[a].dead && HistoryKept(old(g), g)
        invariant forall y :: Call(y) in old(st).threads[a].todo ==> Call(y) in st.threads[a].todo || y in g.ended
        invariant Quiet(env) ==> Drained(st, a, |st.threads[a].todo|) == Drained(old(st), a, |old(st).threads[a].todo|)
        decreases |st.threads[a].todo|
      {
        DrainUnfold(st, a);
        next := ReleaseOne(a, env, next);
      }
      DrainEnd(st, a);
    }

    /** binder_release_work on the list of a dead process. */
    method ReleaseProcWork(p: Pid, env: Env, k: nat) returns (next: nat)
      requires Valid() && p in st.procTodo && p in st.deadProcs
      modifies this
      ensures Valid() && HistoryKept(old(g), g) && p in st.procTodo && st.procTodo[p] == []
      ensures Quiet(env) ==> st == ProcDrained(old(st), p, |old(st).procTodo[p]|)
    {
      hide Inv, Fail, Undisturbed, Stable;
      next := k;
      while st.procTodo[p] != []
        invariant Valid() && p in st.procTodo && p in st.deadProcs && HistoryKept(old(g), g)
        invariant Quiet(env) ==> ProcDrained(st, p, |st.procTodo[p]|) == ProcDrained(old(st), p, |old(st).procTodo[p]|)
        decreases |st.procTodo[p]|
      {
        ghost var s0 := st;
        var x := ReleaseProcItem(p);
        ghost var s1 := st;
        DeadProcKept(s0, s1, p);
        Others(env(next), OfNobody, Some(x));
        ProcKept(s1, st, p, Some(x));
        StillFailing(s1, st, OfNobody, x);
        ghost var s2, walked := st, [];
        if Quiet(env) { FailKeepsProcs(st, g, x); }
        next, walked := SendFailedReply(x, OfNobody, env, next + 1);
        ProcKept(s2, st, p, None);
      }
    }

    /** binder_thread_release */
    method ThreadRelease(a: Tid, env: Env, k: nat) returns (next: nat)
      requires Valid() && Alive(st, a) && st.threads[a].busy == Idle && !st.threads[a].waiting
      modifies this
      ensures Valid() && HistoryKept(old(g), g) && a in st.threads && st.threads[a].dead && st.threads[a].todo == []
      ensures forall y :: Call(y) in old(st).threads[a].todo ==> y in g.ended
      ensures old(IsServing(st, a)) ==> old(st).threads[a].stack.value in g.ended && old(st).threads[a].stack.value !in old(g).ended
      ensures Quiet(env) ==>
                var reply := if old(IsServing(st, a)) then old(st).threads[a].stack else None;
                var s1 := if reply.Some? then Fail(Die(old(st), a), reply.value) else Die(old(st), a);
                a in s1.threads && st == Drained(s1, a, |s1.threads[a].todo|)
    {
      hide Inv, Fail, Drained, Undisturbed, Stable;
      var sendReply := ReleaseStack(a);
      ghost var s1, g1 := st, g;
      Others(env(k), OfThread(a), sendReply);
      DeadKept(s1, st, a, sendReply);
      next := k + 1;
      if sendReply.Some? {
        StillFailing(s1, st, OfThread(a), sendReply.value);
        ghost var s2, walked := st, [];
        NotEnded(s1, g1, sendReply.value);
        ghost var g2 := g;
        next, walked := SendFailedReply(sendReply.value, OfThread(a), env, next);
        DeadKept(s2, st, a, None);
        ChainHead(g2, g, walked);
      }
      next := ReleaseWork(a, env, next);
    }
  }

  lemma DrainUnfold(s: State, a: Tid)
    requires a in s.threads && s.threads[a].todo != []
    ensures Drained(s, a, |s.threads[a].todo|) == Drained(DrainOne(s, a), a, |s.threads[a].todo[1..]|)
    ensures s.threads[a].todo == [s.threads[a].todo[0]] + s.threads[a].todo[1..]
  {
  }

  lemma DrainEnd(s: State, a: Tid)
    ensures Drained(s, a, 0) == s
  {
  }

  lemma ParentKnown(s: State, g: History, x: Xid)
    requires Inv(s, g) && x in s.txns
    ensures x in g.parent && g.parent[x] == s.txns[x].fromParent
  {
    TxnAt(s, g, x);
  }

  lemma ParentBelow(s: State, g: History, x: Xid)
    requires Inv(s, g) && x in s.txns
    ensures s.txns[x].fromParent.Some? ==> s.txns[x].fromParent.value < x
  {
    hide Inv, CallerOk, PlaceOk, TargetOk;
    TxnAt(s, g, x);
  }

  /** One round of a failed reply, written out. */
  lemma FailIs(s: State, x: Xid)
    requires x in s.txns
    ensures s.txns[x].from.Some? && s.txns[x].from.value in s.threads ==>
              var a := s.txns[x].from.value;
              var th := s.threads[a];
              Fail(s, x) == s.(txns := s.txns - {x},
                               threads := s.threads[a := th.(stack := s.txns[x].fromParent,
                                                             todo := if ReplyError in th.todo then th.todo else th.todo + [ReplyError])])
    ensures s.txns[x].from == None ==>
              match s.txns[x].fromParent
              case None => WithoutOrphan(s, x) == s.(txns := s.txns - {x})
              case Some(u) => u in s.txns && u != x ==> WithoutOrphan(s, x) == s.(txns := (s.txns - {x})[u := s.txns[u].(place := Failing)])
    ensures s.txns[x].from == None && s.txns[x].fromParent == None ==> Fail(s, x) == WithoutOrphan(s, x)
  {
    if s.txns[x].from.Some? && s.txns[x].from.value in s.threads {
      var a := s.txns[x].from.value;
      var th := s.threads[a];
      var s1 := WithoutTop(s, x);
      assert s1.threads[a].todo == th.todo;
      assert s1.threads[a := th.(stack := s.txns[x].fromParent, todo := th.todo + [ReplyError])]
             == s.threads[a := th.(stack := s.txns[x].fromParent, todo := th.todo + [ReplyError])];
    }
  }

  /** Handing over a reply, written out. */
  lemma HandIs(s: State, a: Tid)
    requires a in s.threads && s.threads[a].busy.Holding? && s.threads[a].busy.x in s.txns
    ensures var x := s.threads[a].busy.x;
            s.txns[x].from.Some? && s.txns[x].from.value in s.threads ==>
              var from := s.txns[x].from.value;
              var ths := s.threads[a := s.threads[a].(busy := Idle)];
              HandOver(LetGo(s, a), x)
              == s.(txns := s.txns - {x},
                    threads := ths[from := ths[from].(stack := s.txns[x].fromParent, todo := ths[from].todo + [Reply(x)])])
  {
    var x := s.threads[a].busy.x;
    if s.txns[x].from.Some? && s.txns[x].from.value in s.threads {
      var from := s.txns[x].from.value;
      var s1 := LetGo(s, a);
      var s2 := WithoutTop(s1, x);
      assert s2.txns == s.txns - {x};
      assert HandOver(s1, x).threads == s1.threads[from := s1.threads[from].(stack := s.txns[x].fromParent, todo := s1.threads[from].todo + [Reply(x)])];
    }
  }

  /** What is left when a thread dies, written out. */
  lemma DieIs(s: State, a: Tid)
    requires a in s.threads
    ensures var s' := Die(s, a);
            && s'.threads == s.threads[a := s.threads[a].(stack := None, dead := true)]
            && s'.procTodo == s.procTodo && s'.deadProcs == s.deadProcs && s'.nextId == s.nextId && s'.txns.Keys == s.txns.Keys
            && forall y :: y in s'.txns ==>
                 var t := s.txns[y];
                 s'.txns[y] == if t.place == Delivered(a) then
                                 t.(toProc := None, toThread := None, place := if s.threads[a].stack == Some(y) then Failing else Orphan)
                               else if t.from == Some(a) then t.(from := None)
                               else t
  {
  }

  lemma HandStable(s0: State, s1: State, s2: State, s3: State, a: Tid, x: Xid)
    requires Stable(s0, s1, OfThread(a), None) && Stable(s1, s2, OfNobody, Some(x)) && Stable(s2, s3, OfNobody, None)
    requires x in s0.txns && s0.txns[x].place != Failing
    ensures Stable(s0, s3, OfThread(a), None)
  {
    hide Stable;
    StableMore(s0, s1, OfThread(a), Some(x));
    StableMore(s1, s2, OfThread(a), Some(x));
    StableMore(s2, s3, OfThread(a), Some(x));
    StableTrans(s0, s1, s2, OfThread(a), Some(x));
    StableTrans(s0, s2, s3, OfThread(a), Some(x));
    StableLess(s0, s3, OfThread(a), x);
  }

  lemma ForeignStep(s: State, s1: State, s2: State, me: Who, mine: Option<Xid>, e: Event)
    requires Undisturbed(s, s1, me, mine) && Stable(s1, s2, Actor(e), Subject(e)) && Foreign(e, me, mine)
    ensures Undisturbed(s, s2, me, mine)
  {
    hide Undisturbed, Stable;
    UndisturbedStep(s, s1, s2, me, mine, Actor(e), Subject(e));
  }

  lemma UndisturbedMore(s: State, s1: State, s2: State, me: Who, mine: Option<Xid>)
    requires Undisturbed(s, s1, me, None) && Undisturbed(s1, s2, me, mine)
    ensures Undisturbed(s, s2, me, None)
  {
    if me.OfThread? && me.a in s.threads {
      forall y | y in s.txns && Held(s.txns[y].place, me.a) ensures y in s2.txns && s2.txns[y].place == s.txns[y].place {
        assert y in s1.txns && Held(s1.txns[y].place, me.a);
      }
    }
    forall p | p in s.procTodo ensures p in s2.procTodo && (p in s.deadProcs ==> |s2.procTodo[p]| <= |s.procTodo[p]|) {
      assert p in s1.procTodo;
    }
  }

  lemma StillFailing(s: State, s': State, me: Who, x: Xid)
    requires Undisturbed(s, s', me, Some(x)) && x in s.txns && s.txns[x].place == Failing
    ensures x in s'.txns && s'.txns[x].place == Failing
  {
  }

  lemma MeKept(s: State, s': State, a: Tid, mine: Option<Xid>)
    requires Undisturbed(s, s', OfThread(a), mine) && a in s.threads
    ensures a in s'.threads && ThreadKept(s.threads[a], s'.threads[a], false)
  {
  }

  lemma HeldKept(s: State, s': State, a: Tid, x: Xid)
    requires Undisturbed(s, s', OfThread(a), None) && a in s.threads && x in s.txns && Held(s.txns[x].place, a)
    ensures x in s'.txns && s'.txns[x].place == s.txns[x].place
  {
  }

  lemma DeadKept(s: State, s': State, a: Tid, mine: Option<Xid>)
    requires Undisturbed(s, s', OfThread(a), mine) && a in s.threads && s.threads[a].dead
    ensures a in s'.threads && s'.threads[a] == s.threads[a]
  {
  }

  lemma ProcKept(s: State, s': State, p: Pid, mine: Option<Xid>)
    requires Undisturbed(s, s', OfNobody, mine) && p in s.procTodo && p in s.deadProcs
    ensures p in s'.procTodo && p in s'.deadProcs && |s'.procTodo[p]| <= |s.procTodo[p]|
  {
  }

  lemma DeadProcKept(s: State, s': State, p: Pid)
    requires Stable(s, s', OfNobody, None) && p in s.deadProcs
    ensures p in s'.deadProcs
  {
  }

  lemma FailingAfter(s: State, s': State, a: Tid, x: Xid)
    requires Stable(s, s', OfThread(a), None) && x in s.txns && s.txns[x].place == Failing
    ensures x in s'.txns && s'.txns[x].place == Failing
  {
  }

  /** A chain on the way: all but the last have ended, each made for the next. */
  ghost predicate Walking(g0: History, g: History, walked: seq<Xid>) {
    && walked != []
    && (forall i :: 0 <= i < |walked| - 1 ==>
          && walked[i] in g.ended && walked[i] !in g0.ended && walked[i] in g.parent
          && g.ended[walked[i]] == CallerGone && g.parent[walked[i]] == Some(walked[i + 1]) && walked[i + 1] < walked[i])
  }

  lemma WalkedOn(g0: History, g1: History, g: History, walked: seq<Xid>, t: Xid, up: Option<Xid>)
    requires Walking(g0, g1, walked) && walked[|walked| - 1] == t && HistoryKept(g0, g1)
    requires t !in g1.ended && t in g1.parent && g.parent == g1.parent
    requires t in g.ended && g.ended == g1.ended[t := g.ended[t]] && g.ended[t] in {ErrorToCaller, CallerGone}
    requires g.ended[t] == CallerGone ==> g.parent[t] == up
    requires up.Some? ==> g.ended[t] == CallerGone && up.value < t
    ensures if up.Some? then Walking(g0, g, walked + [up.value]) else ChainEnded(g0, g, walked)
  {
  }

  lemma WalkingKept(g0: History, g1: History, g: History, walked: seq<Xid>)
    requires Walking(g0, g1, walked) && HistoryKept(g1, g)
    ensures Walking(g0, g, walked)
  {
  }

  lemma ChainHead(g0: History, g: History, walked: seq<Xid>)
    requires ChainEnded(g0, g, walked)
    ensures walked[0] in g.ended && walked[0] !in g0.ended && g.ended[walked[0]] in {ErrorToCaller, CallerGone}
  {
  }

  lemma NotEnded(s: State, g: History, x: Xid)
    requires Inv(s, g) && x in s.txns
    ensures x !in g.ended
  {
  }

  lemma WithoutTopFrame(s: State, x: Xid)
    requires x in s.txns && s.txns[x].from.Some? && s.txns[x].from.value in s.threads
    ensures var a := s.txns[x].from.value;
            && a in WithoutTop(s, x).threads && WithoutTop(s, x).threads[a].stack == s.txns[x].fromParent
            && WithoutTop(s, x).threads[a].todo == s.threads[a].todo && WithoutTop(s, x).threads[a].waiting == s.threads[a].waiting
  {
  }

  lemma WithoutTopAlive(s: State, x: Xid)
    requires x in s.txns && s.txns[x].from.Some? && Alive(s, s.txns[x].from.value)
    ensures Alive(WithoutTop(s, x), s.txns[x].from.value)
  {
  }

  /** A thread with something on its stack is not on the waiting list. */
  lemma NotWaiting(s: State, g: History, a: Tid)
    requires Inv(s, g) && a in s.threads && s.threads[a].stack.Some?
    ensures !s.threads[a].waiting
  {
    ThreadAt(s, g, a);
  }

  lemma OrphanFails(s: State, x: Xid)
    requires x in s.txns && s.txns[x].fromParent.Some? && s.txns[x].fromParent.value in WithoutOrphan(s, x).txns
    ensures WithoutOrphan(s, x).txns[s.txns[x].fromParent.value].place == Failing
  {
  }

  lemma FailUnfold(s: State, x: Xid)
    requires x in s.txns && s.txns[x].from == None && s.txns[x].fromParent.Some? && s.txns[x].fromParent.value < x
    ensures Fail(s, x) == Fail(WithoutOrphan(s, x), s.txns[x].fromParent.value)
  {
  }

  lemma FindCallerUnfold(s: State, g: History, x: Xid, p: Pid)
    requires Inv(s, g) && x in s.txns
    ensures var t := s.txns[x];
            && (t.from.Some? ==> t.from.value in s.threads)
            && (t.fromParent.Some? ==> t.fromParent.value in s.txns && t.fromParent.value < x)
            && FindCaller(s, Some(x), p) == if t.from.Some? && s.threads[t.from.value].proc == p then t.from else FindCaller(s, t.fromParent, p)
  {
    hide Inv, PlaceOk;
    TxnAt(s, g, x);
  }

  lemma FindCallerNone(s: State, p: Pid)
    ensures FindCaller(s, None, p) == None
  {
  }

  lemma BusyAlive(s: State, g: History, a: Tid)
    requires Inv(s, g) && a in s.threads && s.threads[a].busy != Idle
    ensures Alive(s, a)
  {
    ThreadAt(s, g, a);
  }

  lemma BusyNotWaiting(s: State, g: History, a: Tid)
    requires Inv(s, g) && a in s.threads && s.threads[a].busy != Idle
    ensures !s.threads[a].waiting
  {
    ThreadAt(s, g, a);
  }

  lemma WaitingAlive(s: State, g: History, c: Tid)
    requires Inv(s, g) && c in s.threads
    ensures s.threads[c].waiting ==> Alive(s, c)
  {
    ThreadAt(s, g, c);
  }

  lemma DeadNotWaiting(s: State, g: History, a: Tid)
    requires Inv(s, g) && a in s.threads && s.threads[a].dead
    ensures !s.threads[a].waiting
  {
    ThreadAt(s, g, a);
  }

  lemma SendingAt(s: State, g: History, a: Tid)
    requires Inv(s, g) && IsSending(s, a)
    ensures var t := s.txns[s.threads[a].busy.x];
            && Alive(s, a) && t.from == Some(a) && t.toProc.Some? && t.toProc.value in s.procTodo
            && (t.toThread.Some? ==> t.toThread.value in s.threads)
  {
    TxnAt(s, g, s.threads[a].busy.x);
  }

  lemma {:induction false} FailKeepsProcs(s: State, g: History, x: Xid)
    requires Inv(s, g) && x in s.txns && s.txns[x].place == Failing
    ensures Fail(s, x).procTodo == s.procTodo
    decreases x
  {
    hide Inv;
    var t := s.txns[x];
    if t.from.Some? {
      FailingFacts(s, g, x);
    } else {
      WithoutOrphanInv(s, g, x, CallerGone);
      if t.fromParent.Some? { FailKeepsProcs(WithoutOrphan(s, x), EndHistory(g, x, CallerGone), t.fromParent.value); }
    }
  }

  lemma StackEnd(stk: seq<Xid>)
    ensures stk[0..] == stk
  {
  }

  lemma HeadIs(stk: seq<Xid>, k: nat)
    requires k <= |stk| && Head(stk[k..]).Some?
    ensures k < |stk| && Head(stk[k..]) == Some(stk[k])
  {
  }

  lemma TailEmpty(stk: seq<Xid>, k: nat)
    requires k <= |stk| && Head(stk[k..]) == None
    ensures k == |stk|
  {
  }

  /** On the stack of a thread, to_thread tells the calls it serves from the calls it made, and there is no third kind. */
  lemma WalkAt(s: State, g: History, a: Tid, k: nat)
    requires Inv(s, g) && a in s.threads && a in g.stk && k < |g.stk[a]|
    ensures var x := g.stk[a][k];
            && x in s.txns && Descending(g.stk[a])
            && (s.txns[x].toThread == Some(a) || s.txns[x].from == Some(a))
            && Head(g.stk[a][k + 1..]) == if s.txns[x].toThread == Some(a) then s.txns[x].toParent else s.txns[x].fromParent
  {
    hide Inv;
    ThreadAt(s, g, a);
    LinkAt(s, g, a, k);
    TxnAt(s, g, g.stk[a][k]);
  }

  lemma DieTop(s: State, g: History, a: Tid)
    requires Inv(s, g) && Alive(s, a) && s.threads[a].stack.Some?
    requires s.threads[a].stack.value in s.txns && s.txns[s.threads[a].stack.value].toThread == Some(a)
    ensures s.threads[a].stack.value in Die(s, a).txns && Die(s, a).txns[s.threads[a].stack.value].place == Failing
  {
    TopServed(s, g, a);
  }
}
