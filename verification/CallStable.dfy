/** What one step of the driver leaves alone of everybody else's business: the facts that an operation carries from one
    locked region to its next one hold whatever others do in between. */
module CallStable {
  import opened Words
  import opened CallStack
  import opened CallSteps
  import opened CallEnds

  /** Who takes a step. */
  datatype Who = OfThread(a: Tid) | OfNobody

  predicate Held(p: Place, b: Tid) {
    p in {Sending(b), Taken(b), Replying(b)}
  }

  /** A thread that did not take the step is in the middle of what it was in the middle of; a dead one is untouched. */
  predicate ThreadKept(th: Thread, th': Thread, own: bool) {
    && th'.proc == th.proc && (th.dead ==> th'.dead)
    && (!own ==> th'.busy == th.busy && th'.dead == th.dead && (th'.waiting ==> th.waiting) && (th.dead ==> th' == th))
  }

  /** A step by `who` on the failing call x, if any: other threads, the calls they hold, other failing calls and the lists of
      dead processes are as before, or shorter. */
  ghost predicate Stable(s: State, s': State, who: Who, x: Option<Xid>) {
    && (forall b :: b in s.threads ==> b in s'.threads && ThreadKept(s.threads[b], s'.threads[b], who == OfThread(b)))
    && (forall y :: y in s.txns && s.txns[y].place == Failing && x != Some(y) ==> y in s'.txns && s'.txns[y].place == Failing)
    && (forall y, b :: y in s.txns && Held(s.txns[y].place, b) && who != OfThread(b) ==> y in s'.txns && s'.txns[y].place == s.txns[y].place)
    && s.deadProcs <= s'.deadProcs
    && (forall p :: p in s.procTodo ==> p in s'.procTodo && (p in s.deadProcs ==> |s'.procTodo[p]| <= |s.procTodo[p]|))
  }

  lemma StableRefl(s: State, who: Who, x: Option<Xid>)
    ensures Stable(s, s, who, x)
  {
  }

  lemma StableTrans(s: State, s1: State, s2: State, who: Who, x: Option<Xid>)
    requires Stable(s, s1, who, x) && Stable(s1, s2, who, x)
    ensures Stable(s, s2, who, x)
  {
    forall b | b in s.threads ensures b in s2.threads && ThreadKept(s.threads[b], s2.threads[b], who == OfThread(b)) {
      assert b in s1.threads;
    }
    forall y | y in s.txns && s.txns[y].place == Failing && x != Some(y) ensures y in s2.txns && s2.txns[y].place == Failing {
      assert y in s1.txns;
    }
    forall y, b | y in s.txns && Held(s.txns[y].place, b) && who != OfThread(b) ensures y in s2.txns && s2.txns[y].place == s.txns[y].place {
      assert y in s1.txns && Held(s1.txns[y].place, b);
    }
    forall p | p in s.procTodo ensures p in s2.procTodo && (p in s.deadProcs ==> |s2.procTodo[p]| <= |s.procTodo[p]|) {
      assert p in s1.procTodo;
    }
  }

  /** A step that may do less may do more. */
  lemma StableMore(s: State, s': State, who: Who, x: Option<Xid>)
    requires Stable(s, s', OfNobody, None) || Stable(s, s', OfNobody, x) || Stable(s, s', who, None)
    ensures Stable(s, s', who, x)
  {
  }

  /** A call that was not failing needs no exception. */
  lemma StableLess(s: State, s': State, who: Who, x: Xid)
    requires Stable(s, s', who, Some(x)) && (x in s.txns ==> s.txns[x].place != Failing)
    ensures Stable(s, s', who, None)
  {
  }

  // ---- Step by step ----

  lemma TodoStable(s: State, a: Tid, todo: seq<Work>)
    requires a in s.threads
    ensures Stable(s, WithTodo(s, a, todo), OfThread(a), None)
    ensures !s.threads[a].dead ==> Stable(s, WithTodo(s, a, todo), OfNobody, None)
  {
  }

  lemma WaitingStable(s: State, a: Tid, waiting: bool)
    requires a in s.threads
    ensures Stable(s, WithWaiting(s, a, waiting), OfThread(a), None)
  {
  }

  lemma PlanStable(s: State, a: Tid, p: Pid)
    requires a in s.threads
    ensures Stable(s, WithPlan(s, a, p), OfThread(a), None) && Stable(s, WithIdle(s, a), OfThread(a), None)
  {
    hide FindCaller;
  }

  lemma PushStable(s: State, g: History, a: Tid)
    requires Inv(s, g) && a in s.threads && s.threads[a].busy.Planning?
    ensures Stable(s, WithPush(s, a), OfThread(a), None)
  {
    hide Inv;
    NextIsNew(s, g);
  }

  lemma NextIsNew(s: State, g: History)
    requires Inv(s, g)
    ensures s.nextId !in s.txns
  {
    hide Inv, CallerOk, PlaceOk, TargetOk;
    if s.nextId in s.txns { TxnAt(s, g, s.nextId); }
  }

  lemma QueueAtStable(s: State, a: Tid, c: Tid)
    requires a in s.threads && c in s.threads && c != a && !s.threads[c].dead && s.threads[a].busy.Holding? && s.threads[a].busy.x in s.txns
    requires s.txns[s.threads[a].busy.x].place == Sending(a)
    ensures Stable(s, QueueAt(s, a, c), OfThread(a), None)
  {
  }

  lemma QueueProcStable(s: State, a: Tid, p: Pid)
    requires a in s.threads && s.threads[a].busy.Holding? && s.threads[a].busy.x in s.txns && p in s.procTodo && p !in s.deadProcs
    requires s.txns[s.threads[a].busy.x].place == Sending(a)
    ensures Stable(s, QueueProc(s, a, p), OfThread(a), None)
  {
  }

  lemma UnholdStable(s: State, a: Tid)
    requires a in s.threads && s.threads[a].busy.Holding? && s.threads[a].busy.x in s.txns && Held(s.txns[s.threads[a].busy.x].place, a)
    ensures Stable(s, Unhold(s, a), OfThread(a), None)
  {
  }

  lemma WithoutTopStable(s: State, g: History, x: Xid)
    requires Inv(s, g) && x in s.txns && s.txns[x].place == Failing && s.txns[x].from.Some? && s.txns[x].from.value in s.threads
    ensures Stable(s, WithoutTop(s, x), OfNobody, Some(x))
  {
    hide Inv, Unclaimed, Childless;
    FailingFacts(s, g, x);
  }

  lemma WithoutOrphanStable(s: State, g: History, x: Xid)
    requires Inv(s, g) && x in s.txns && s.txns[x].place == Failing && s.txns[x].from == None
    ensures Stable(s, WithoutOrphan(s, x), OfNobody, Some(x))
  {
    hide Inv;
    if s.txns[x].fromParent.Some? { ParentWasOrphan(s, g, x); }
  }

  lemma TakeOwnStable(s: State, g: History, a: Tid)
    requires Inv(s, g) && OwnCall(s, a) && s.threads[a].todo[0].x in s.txns
    ensures Stable(s, TakeOwn(s, a), OfThread(a), None)
  {
    hide Inv, Childless, Calls;
    OwnCallFacts(s, g, a);
  }

  lemma TakeProcStable(s: State, g: History, a: Tid)
    requires Inv(s, g) && ProcCall(s, a) && s.procTodo[s.threads[a].proc][0] in s.txns
    ensures Stable(s, TakeProc(s, a), OfThread(a), None)
  {
    hide Inv, Childless, Distinct;
    ProcCallFacts(s, g, a);
  }

  lemma AcceptStable(s: State, a: Tid)
    requires IsTaken(s, a)
    ensures Stable(s, Accept(s, a), OfThread(a), None)
  {
  }

  lemma ReplyPopStable(s: State, g: History, a: Tid)
    requires Inv(s, g) && IsServing(s, a)
    ensures Stable(s, ReplyPop(s, a), OfThread(a), None)
  {
    hide Inv, Unclaimed, Childless, Calls;
    ServingFacts(s, g, a);
  }

  lemma DieStable(s: State, a: Tid)
    requires a in s.threads && !s.threads[a].dead
    ensures Stable(s, Die(s, a), OfThread(a), None)
  {
  }

  lemma DropOwnStable(s: State, g: History, c: Tid)
    requires Inv(s, g) && DeadCall(s, c) && s.threads[c].todo[0].x in s.txns
    ensures Stable(s, DropOwn(s, c), OfThread(c), None)
  {
    hide Inv, Childless, Calls;
    DeadCallFacts(s, g, c);
  }

  lemma DropProcStable(s: State, g: History, p: Pid)
    requires Inv(s, g) && p in s.procTodo && s.procTodo[p] != [] && s.procTodo[p][0] in s.txns
    ensures Stable(s, DropProc(s, p), OfNobody, None)
  {
    hide Inv, Childless, Distinct;
    DeadProcFacts(s, g, p);
  }

  lemma NewStable(s: State, a: Tid, p: Pid)
    ensures a !in s.threads ==> Stable(s, NewThread(s, a, p), OfNobody, None)
    ensures p !in s.procTodo ==> Stable(s, s.(procTodo := s.procTodo[p := []]), OfNobody, None)
    ensures Stable(s, s.(deadProcs := s.deadProcs + {p}), OfNobody, None)
  {
  }
}
