/** The table of nodes and references, and the buffers of transactions, changed in place by the commands of user space,
    by work that is read, by transactions step by step, and by the death of a process. Each method without a loop is one
    region under a lock; what runs between two of them may be any others. */
module RefTable {
  import opened Words
  import opened NodeRefs
  import opened ObjectRefs
  import opened Conservation
  import opened TableSteps
  import opened NodeTold

  /** The reference a command means: the one with that descriptor, or, when handle 0 is incremented, the one to the
      context manager, which the command makes if it is missing. */
  predicate Addressed(s: State, p: Pid, target: nat, increment: bool, k: Key) {
    k.p == p && ((increment && target == 0 && s.ctx == Some(k.n)) || (k in s.refs && s.refs[k].desc == target))
  }

  /** An increment through a descriptor: the reference is held like that already, or its node may be held weakly because
      the owner knows of a weak reference or is about to. */
  predicate Welcome(s: State, k: Key, strong: bool)
    requires k in s.refs
  {
    if strong then s.refs[k].strong > 0
    else s.refs[k].weak > 0 || (k.n in s.nodes && (s.nodes[k.n].hasWeak || s.nodes[k.n].queued))
  }

  lemma WelcomeIff(s: State, k: Key, strong: bool)
    requires k in s.refs && k.n in s.nodes && (strong ==> s.refs[k].strong > 0)
    ensures IncRef(s, k, strong, false).1 <==> Welcome(s, k, strong)
  {
  }

  /** An increment of the reference to the context manager: there is one or memory for one, and it is held like that already,
      or the manager's node may be held so without a list for its work. */
  predicate ManagerTakes(s: State, k: Key, strong: bool, memOk: bool)
    requires k.n in s.nodes
  {
    var nd := s.nodes[k.n];
    && (k in s.refs || memOk)
    && if strong then (k in s.refs && s.refs[k].strong > 0) || nd.internalStrong != 0 || nd.hasStrong
       else (k in s.refs && s.refs[k].weak > 0) || nd.hasWeak || nd.queued
  }

  predicate WelcomeThrough(s: State, p: Pid, target: nat, strong: bool, k: Key) {
    k in s.refs && k.p == p && s.refs[k].desc == target && Welcome(s, k, strong)
  }

  lemma ThroughFound(s: State, p: Pid, target: nat, strong: bool, found: Option<Key>)
    requires DescsApart(s) && found == FindRef(s, p, target)
    ensures (exists k :: WelcomeThrough(s, p, target, strong, k)) <==> found.Some? && Welcome(s, found.value, strong)
  {
    if found.Some? && Welcome(s, found.value, strong) { assert WelcomeThrough(s, p, target, strong, found.value); }
  }

  /** Refused there, the descriptor 0 itself is tried: a reference made just before is not held, so that does not help. */
  lemma ManagerIff(s: State, k: Key, strong: bool, memOk: bool)
    requires k.n in s.nodes && !s.nodes[k.n].dead && s.ctx == Some(k.n)
    ensures var (s', d) := IncRefForNode(s, k, strong, false, memOk);
            && (d.Some? <==> ManagerTakes(s, k, strong, memOk))
            && (d == None ==> forall l :: WelcomeThrough(s', k.p, 0, strong, l) <==> WelcomeThrough(s, k.p, 0, strong, l))
  {
    hide FirstFree, Descs;
  }

  lemma OnlyThatRef(s: State, k: Key, strong: bool, memOk: bool)
    requires k.n in s.nodes
    ensures var s' := IncRefForNode(s, k, strong, false, memOk).0;
            && s'.refs.Keys <= s.refs.Keys + {k}
            && (forall l :: l in s.refs ==> l in s'.refs && s'.refs[l].desc == s.refs[l].desc)
  {
  }

  class NodeTable {
    var nodes: map<Nid, Node>
    var refs: map<Key, Ref>
    var ctx: Option<Nid>
    var bufs: seq<Buf>       // transactions under way or delivered, by position
    var dying: set<Pid>      // processes with is_dead set

    function St(): State
      reads this
    {
      State(nodes, refs, ctx)
    }

    ghost predicate Valid()
      reads this
    {
      Inv(St()) && AllTold(St()) && Backed(St(), bufs, dying) && BufsOk(bufs, dying) && Owners(St(), dying)
    }

    constructor ()
      ensures Valid() && St() == State(map[], map[], None) && bufs == [] && dying == {}
    {
      nodes, refs, ctx, bufs, dying := map[], map[], None, [], {};
    }

    method Store(s: State)
      modifies this`nodes, this`refs, this`ctx
      ensures St() == s
    {
      nodes, refs, ctx := s.nodes, s.refs, s.ctx;
    }

    // ---- Commands and work ----

    /** BINDER_SET_CONTEXT_MGR */
    method SetContextManager(p: Pid, ptr: nat, cookie: nat, allowed: bool, memOk: bool) returns (r: Result<()>)
      requires Valid() && p !in dying
      modifies this`nodes, this`refs, this`ctx
      ensures Valid()
      ensures r.Ok? <==> old(ctx) == None && allowed && (Nid(p, ptr) in old(nodes) || memOk)
      ensures r == Err(EBUSY) <==> old(ctx).Some?
      ensures r.Ok? ==> ctx == Some(Nid(p, ptr)) && refs == old(refs) && ctx.value in nodes
                        && nodes[ctx.value].localStrong >= 1 && nodes[ctx.value].localWeak >= 1
      ensures r.Ok? ==> forall c :: Count(St(), c) == old(Count(St(), c)) + if c in {NodeStrong(ctx.value), NodeWeak(ctx.value)} then 1 else 0
      ensures r.Ok? ==> nodes[ctx.value].hasStrong && nodes[ctx.value].hasWeak
                        && (forall m :: m in nodes && m != ctx.value ==> m in old(nodes) && nodes[m] == old(nodes)[m])
                        && (ctx.value in old(nodes) ==> nodes[ctx.value].cookie == old(nodes)[ctx.value].cookie)
      ensures r.Ok? && Nid(p, ptr) !in old(nodes) ==> nodes[ctx.value].cookie == cookie
      ensures r.Err? ==> St() == old(St())
    {
      hide Inv, AllTold, Backed, BufsOk, Owners, ManagerSet;
      if ctx.Some? { return Err(EBUSY); }
      if !allowed { return Err(EPERM); }
      var n := Nid(p, ptr);
      if n !in nodes && !memOk { return Err(ENOMEM); }
      OwnedAlive(St(), dying, n);
      ManagerStep(St(), bufs, dying, n, cookie);
      ManagerTold(St(), n, cookie);
      Store(ManagerSet(St(), n, cookie));
      return Ok(());
    }

    /** BC_INCREFS, BC_ACQUIRE, BC_RELEASE and BC_DECREFS. Handle 0 stands for the context manager on increments.
        One count of the reference meant changes, or none: a weak count that is zero is not lowered. */
    method UpdateRef(p: Pid, target: nat, increment: bool, strong: bool, memOk: bool) returns (r: Result<()>)
      requires Valid()
      modifies this`nodes, this`refs, this`ctx
      ensures Valid()
      ensures r.Ok? ==> exists k: Key :: && Addressed(old(St()), p, target, increment, k)
                                         && if increment || Count(old(St()), RefCell(k, strong)) > 0 then
                                              Shifted(old(St()), St(), RefCell(k, strong), if increment then 1 else -1)
                                            else SameCounts(old(St()), St())
      // Only a decrement lets a node go, and then that count was the last one.
      ensures VanishedIdle(old(St()), St(), None)
              || (!increment && exists k: Key :: Addressed(old(St()), p, target, false, k) && VanishedIdle(old(St()), St(), Some(RefCell(k, strong))))
      ensures r.Err? ==> SameCounts(old(St()), St())
      ensures MarksKept(old(St()), St()) && NewRefs(old(St()), St())
      ensures increment && (target != 0 || old(ctx) == None) ==> (r.Ok? <==> exists k :: WelcomeThrough(old(St()), p, target, strong, k))
      ensures increment && target == 0 && old(ctx).Some? ==>
                && old(ctx).value in old(nodes)
                && (r.Ok? && ManagerTakes(old(St()), Key(p, old(ctx).value), strong, memOk) ==>
                      Shifted(old(St()), St(), RefCell(Key(p, old(ctx).value), strong), 1))
                && (r.Ok? <==> && old(ctx).value.owner != p
                               && (ManagerTakes(old(St()), Key(p, old(ctx).value), strong, memOk) || exists k :: WelcomeThrough(old(St()), p, 0, strong, k)))
      ensures !increment ==>
                (r.Ok? <==> exists k: Key :: k in old(refs) && k.p == p && old(refs)[k].desc == target && (strong ==> old(refs)[k].strong > 0))
    {
      hide Inv, AllTold, MarksKept, NewRefs, LinksStay, VanishedIdle, Shifted, SameCounts, IncRefForNode, IncRef, DecRef, Backed, BufsOk, Owners;
      MarksRefl(St());
      NoNewRefs(St(), St());
      ghost var s0 := St();
      SameCountsRefl(s0);
      GoneIdle(s0, s0, None);
      if increment && target == 0 && ctx.Some? {
        ManagerAlive(s0);
        if ctx.value.owner == p { return Err(EINVAL); }
        var k := Key(p, ctx.value);
        LinkSound(s0, bufs, dying, k, strong, memOk);
        OnlyThatRef(s0, k, strong, memOk);
        ManagerIff(s0, k, strong, memOk);
        var (s1, d) := IncRefForNode(St(), k, strong, false, memOk);
        Store(s1);
        GoneGrown(s0, s1);
        if d.Some? {
          assert Addressed(s0, p, target, increment, k);
          return Ok(());
        }
      }
      ghost var sm := St();
      DescsOf(sm);
      var found := FindRef(St(), p, target);
      OneDesc(sm, p, target, found);
      ThroughFound(sm, p, target, strong, found);
      if found == None || (strong && refs[found.value].strong == 0) { return Err(EINVAL); }
      var k := found.value;
      KeyNode(sm, k);
      assert Addressed(s0, p, target, increment, k);
      if increment {
        WelcomeIff(sm, k, strong);
        IncSound(s0, sm, bufs, dying, k, strong);
        var (s1, ok) := IncRef(St(), k, strong, false);
        Store(s1);
        GoneGrown(s0, s1);
        if !ok {
          SameCountsTrans(s0, sm, s1);
          return Err(EINVAL);
        }
        SameThenShift(s0, sm, s1, RefCell(k, strong), 1);
      } else {
        DecSound(sm, bufs, dying, k, strong);
        Store(DecRef(St(), k, strong));
        if Count(sm, RefCell(k, strong)) > 0 { GoneIdle(s0, St(), Some(RefCell(k, strong))); }
      }
      return Ok(());
    }

    /** BC_INCREFS_DONE and BC_ACQUIRE_DONE: the owner acknowledges; its WARN_ON on a freed node cannot fire. */
    method Acknowledge(n: Nid, cookie: nat, strong: bool) returns (ok: bool)
      requires Valid() && n.owner !in dying
      modifies this`nodes, this`refs, this`ctx
      ensures Valid() && VanishedIdle(old(St()), St(), if ok then Some(NodeCell(n, strong)) else None)
      ensures ok <==> n in old(nodes) && old(nodes)[n].cookie == cookie && (if strong then old(nodes)[n].pendingStrong else old(nodes)[n].pendingWeak)
      ensures if ok then Shifted(old(St()), St(), NodeCell(n, strong), -1) else SameCounts(old(St()), St())
      ensures refs == old(refs) && ctx == old(ctx) && forall m :: m != n ==> (m in nodes <==> m in old(nodes)) && (m in nodes ==> nodes[m] == old(nodes)[m])
      ensures n in nodes ==>
                && n in old(nodes)
                && var nd := old(nodes)[n].(queued := nodes[n].queued);
                   nodes[n] == if !ok then nd
                               else if strong then nd.(pendingStrong := false, localStrong := nd.localStrong - 1)
                               else nd.(pendingWeak := false, localWeak := nd.localWeak - 1)
    {
      hide Inv, AllTold, VanishedIdle, Shifted, SameCounts, DecNode, PutNode, Persist, IncTmp, Backed, BufsOk, Owners, Solid;
      ghost var s0 := St();
      SameCountsRefl(s0);
      GoneIdle(s0, s0, None);
      if n !in nodes { return false; }
      OwnedAlive(s0, dying, n);
      IncTmpShifts(s0, n);
      IncTmpIs(s0, n);
      var s1 := IncTmp(St(), n);
      if cookie != s1.nodes[n].cookie || !(if strong then s1.nodes[n].pendingStrong else s1.nodes[n].pendingWeak) {
        GivenUp(s0, s1, 0, n);
        PutNodes(s1, n);
        IncTmpNodes(s0, n);
        SettledStep(s0, PutNode(s1, n), bufs, dying);
        IncTmpRefs(s0, n);
        PutKeepsFlagged(s1, n);
        InvSolid(s0, n);
        IncTmpTold(s0, n);
        PutNodeTold(s1, n);
        GivenBackIs(s0, n);
        Store(PutNode(s1, n));
        GoneIdle(s0, St(), None);
        return false;
      }
      var nd := if strong then s1.nodes[n].(pendingStrong := false) else s1.nodes[n].(pendingWeak := false);
      var s2 := SetNode(s1, n, nd);
      AckInv(s1, n, nd, strong);
      DecLocalShifts(s2, n, strong);
      var s3 := DecNode(s2, n, strong, false);
      TmpAfterDec(s2, s3, n, strong);      // WARN_ON(free_node)
      PutNodeShifts(s3, n);
      AckShift(s0, s1, s2, s3, PutNode(s3, n), n, strong);
      AckStep(s0, bufs, dying, n, strong, s2, s3);
      IncTmpRefs(s0, n);
      DecNodeRefs(s2, n, strong, false);
      PutKeepsFlagged(s3, n);
      InvSolid(s0, n);
      assert s2 == Cleared(s0, n, strong);
      DecNodeCtx(s2, n, strong, false);
      AckTold(s0, n, strong);
      AckIs(s0, n, strong);
      Store(PutNode(s3, n));
      GoneIdle(s0, St(), Some(NodeCell(n, strong)));
      return true;
    }

    /** BINDER_WORK_NODE, dequeued by a thread of the owner: flags and local counts catch up with the
        references, or the node goes. */
    method ReadNodeWork(n: Nid) returns (freed: bool)
      requires Valid() && n in nodes && n.owner !in dying && nodes[n].queued
      modifies this`nodes
      ensures Valid() && VanishedIdle(old(St()), St(), None)
      ensures freed <==> n !in nodes
      ensures var nd := old(nodes)[n]; var strong := nd.internalStrong != 0 || nd.localStrong != 0;
              var weak := Links(old(St()), n) != {} || nd.localWeak != 0 || nd.tmpRefs != 0 || strong;
              && (freed <==> !weak && !strong)
              && nodes == (if freed then old(nodes) - {n} else old(nodes)[n := nodes[n]]) && refs == old(refs) && ctx == old(ctx)
              && (!freed ==> nodes[n].pendingStrong == (nd.pendingStrong || (strong && !nd.hasStrong)))
              && (!freed ==> nodes[n].pendingWeak == (nd.pendingWeak || (weak && !nd.hasWeak)))
              && (!freed ==> nodes[n].internalStrong == nd.internalStrong && nodes[n].tmpRefs == nd.tmpRefs && nodes[n].cookie == nd.cookie)
              && (!freed ==> nodes[n].hasStrong == strong && nodes[n].hasWeak == weak && !nodes[n].queued)
              && (!freed ==> nodes[n].localStrong == nd.localStrong + (if strong && !nd.hasStrong then 1 else 0))
              && (!freed ==> nodes[n].localWeak == nd.localWeak + (if weak && !nd.hasWeak then 1 else 0))
    {
      hide Inv, AllTold, VanishedIdle, Holders, Backed, BufsOk, Owners;
      ghost var s0 := St();
      var nd := nodes[n];
      OwnedAlive(s0, dying, n);
      InternalIs(s0, n);
      var strong := nd.internalStrong != 0 || nd.localStrong != 0;
      var weak := Links(St(), n) != {} || nd.localWeak != 0 || nd.tmpRefs != 0 || strong;
      var nd1 := nd.(queued := false);
      if weak && !nd.hasWeak { nd1 := nd1.(hasWeak := true, pendingWeak := true, localWeak := nd1.localWeak + 1); }
      if strong && !nd.hasStrong { nd1 := nd1.(hasStrong := true, pendingStrong := true, localStrong := nd1.localStrong + 1); }
      if !strong && nd.hasStrong { nd1 := nd1.(hasStrong := false); }
      if !weak && nd.hasWeak { nd1 := nd1.(hasWeak := false); }
      if !weak && !strong {
        ManagerCounts(s0, n);
        DropInv(s0, n);
        DroppedStep(s0, bufs, dying, n);
        GoneTold(s0, n);
        nodes := nodes - {n};
        GoneIdle(s0, St(), None);
        return true;
      }
      WorkInv(s0, n, nd1);
      WorkStep(s0, bufs, dying, n, nd1);
      InvSolid(s0, n);
      WorkTold(s0, n, nd1);
      nodes := nodes[n := nd1];
      GoneGrown(s0, St());
      return false;
    }

    // ---- Transactions, step by step ----

    /** binder_get_node_refs_for_txn on the target: a strong handle, or the context manager. */
    method BeginSend(from: Pid, desc: nat) returns (n: Option<Nid>)
      requires Valid() && from !in dying
      modifies this`nodes, this`refs, this`ctx, this`bufs
      ensures Valid()
      ensures n == None ==> St() == old(St()) && bufs == old(bufs)
      ensures n.Some? <==> if desc != 0 then exists k :: k in old(refs) && k.p == from && old(refs)[k].desc == desc && old(refs)[k].strong > 0
                                                         && k.n in old(nodes) && !old(nodes)[k.n].dead
                           else old(ctx).Some?
      ensures n.Some? && desc == 0 ==> n == old(ctx)
      ensures n.Some? && desc != 0 ==> Key(from, n.value) in old(refs) && old(refs)[Key(from, n.value)].desc == desc
      ensures n.Some? ==>
                && n.value in old(nodes)
                && var nd := old(nodes)[n.value];
                   nodes == old(nodes)[n.value := nd.(localStrong := nd.localStrong + 1, tmpRefs := nd.tmpRefs + 1)] && refs == old(refs) && ctx == old(ctx)
      ensures n.Some? ==> n.value in old(nodes) && !old(nodes)[n.value].dead && St() == SendTo(old(St()), n.value)
                          && bufs == old(bufs) + [Buf(from, n.value, true, true, Building, [])]
    {
      hide Inv, AllTold, Backed, BufsOk, Owners, SendTo;
      DescsOf(St());
      if desc != 0 {
        var k := FindRef(St(), from, desc);
        OneDesc(St(), from, desc, k);
        if k == None || refs[k.value].strong == 0 { return None; }
        KeyNode(St(), k.value);
        if nodes[k.value.n].dead { return None; }
        n := Some(k.value.n);
      } else {
        if ctx == None { return None; }
        ManagerAlive(St());
        n := ctx;
      }
      BeginStep(St(), bufs, dying, from, n.value);
      SendToTold(St(), n.value);
      SendToIs(St(), n.value);
      Store(SendTo(St(), n.value));
      BufsAdded(bufs, Buf(from, n.value, true, true, Building, []), dying);
      bufs := bufs + [Buf(from, n.value, true, true, Building, [])];
    }

    /** The next object of a transaction is translated, or refused. */
    method TranslateNext(i: nat, o: Obj, env: Env) returns (ok: bool)
      requires Valid() && i < |bufs| && bufs[i].phase == Building
      modifies this`nodes, this`refs, this`ctx, this`bufs
      ensures Valid()
      ensures var b := old(bufs[i]); var (s', r) := old(TranslateOne(St(), bufs[i].from, bufs[i].target.owner, o, env));
              && St() == s' && (ok <==> r.Some?)
              && bufs == if r.Some? then old(bufs)[i := b.(outs := b.outs + [r.value])] else old(bufs)
      // The receiver gets the same node; nothing but counts changes, and a refused object changes no count.
      ensures var b := old(bufs[i]);
              if ok then
                exists r, cell :: && bufs == old(bufs)[i := b.(outs := b.outs + [r])] && SameThing(old(St()), St(), b.from, b.target.owner, o, r)
                                  && Bound(St(), b.target.owner, r, cell)
                                  && if cell.Some? then Shifted(old(St()), St(), cell.value, 1) else SameCounts(old(St()), St())
              else bufs == old(bufs) && SameCounts(old(St()), St())
      ensures MarksKept(old(St()), St()) && NewRefs(old(St()), St())
    {
      hide Inv, AllTold, Backed, BufsOk, Owners, TranslateOne, MarksKept, NewRefs, SameThing, Bound, Shifted, SameCounts, Persist;
      BufAt(bufs, i, dying);
      TranslateStep(St(), bufs, dying, i, o, env);
      TranslateOneTold(St(), bufs[i].from, bufs[i].target.owner, o, env);
      TranslateOneNew(St(), bufs[i].from, bufs[i].target.owner, o, env);
      TranslateOneMarks(St(), bufs[i].from, bufs[i].target.owner, o, env);
      TranslatedSame(St(), bufs[i].from, bufs[i].target.owner, o, env);
      ghost var cell := TranslateOneWorks(St(), bufs[i].from, bufs[i].target.owner, o, env);
      var (s1, r) := TranslateOne(St(), bufs[i].from, bufs[i].target.owner, o, env);
      Store(s1);
      if r.Some? {
        BufsUpdated(bufs, i, bufs[i].(outs := bufs[i].outs + [r.value]), dying);
        bufs := bufs[i := bufs[i].(outs := bufs[i].outs + [r.value])];
      }
      return r.Some?;
    }

    /** binder_proc_transaction accepts the transaction, unless the target process is dead. */
    method Accept(i: nat) returns (ok: bool)
      requires Valid() && i < |bufs| && bufs[i].phase == Building
      modifies this`bufs
      ensures Valid() && (ok <==> old(bufs[i]).target.owner !in dying)
      ensures bufs == if ok then old(bufs)[i := old(bufs[i]).(phase := Accepted)] else old(bufs)
    {
      hide Inv, AllTold, Backed, BufsOk, Owners;
      BufAt(bufs, i, dying);
      ok := bufs[i].target.owner !in dying;
      if ok { SetPhase(i, Accepted); }
    }

    method SetPhase(i: nat, phase: Phase)
      requires Valid() && i < |bufs| && BufOk(bufs[i].(phase := phase), dying)
      modifies this`bufs
      ensures Valid() && bufs == old(bufs)[i := old(bufs[i]).(phase := phase)]
    {
      hide Inv, AllTold, Backed, Owners;
      var b := bufs[i].(phase := phase);
      forall c ensures Total(bufs[i := b], c) <= Total(bufs, c) { TotalUpdate(bufs, i, b, c); }
      FewerClaims(St(), bufs, bufs[i := b], dying);
      BufsUpdated(bufs, i, b, dying);
      bufs := bufs[i := b];
    }

    /** A transaction fails part way, or the target is found dead: the release of its buffer begins. */
    method BeginFail(i: nat)
      requires Valid() && i < |bufs| && bufs[i].phase == Building
      modifies this`bufs
      ensures Valid() && bufs == old(bufs)[i := old(bufs[i]).(phase := Failing)]
    {
      hide Inv, AllTold, Backed, BufsOk, Owners;
      BufAt(bufs, i, dying);
      SetPhase(i, Failing);
    }

    /** BC_FREE_BUFFER, given by the receiver: the release of the buffer begins. */
    method BeginFree(i: nat)
      requires Valid() && i < |bufs| && bufs[i].phase == Accepted && bufs[i].target.owner !in dying
      modifies this`bufs
      ensures Valid() && bufs == old(bufs)[i := old(bufs[i]).(phase := Freeing)]
    {
      hide Inv, AllTold, Backed, BufsOk, Owners;
      BufAt(bufs, i, dying);
      SetPhase(i, Freeing);
    }

    /** The first step of binder_transaction_buffer_release: the target node's local strong count. The node is there,
        whoever died meanwhile; but the count ends below zero exactly if the owner died since the send began. */
    method ReleaseTarget(i: nat)
      requires Valid() && i < |bufs| && bufs[i].phase in {Failing, Freeing} && bufs[i].strong
      modifies this`nodes, this`refs, this`ctx, this`bufs
      ensures Valid() && bufs == old(bufs)[i := old(bufs[i]).(strong := false)]
      ensures var n := old(bufs[i]).target;
              && n in old(nodes) && St() == DecNode(old(St()), n, true, false)
              && Shifted(old(St()), St(), NodeStrong(n), -1) && VanishedIdle(old(St()), St(), Some(NodeStrong(n)))
              && (old(nodes)[n].dead <==> Overdrawn(St(), n))
              && LostOne(old(St()), St(), n, old(nodes)[n].(localStrong := old(nodes)[n].localStrong - 1))
    {
      hide Inv, AllTold, Backed, BufsOk, Owners, DecNode, Shifted, VanishedIdle, LostOne, Solid;
      ghost var s0 := St();
      BufAt(bufs, i, dying);
      TargetStep(s0, bufs, dying, i);
      InvSolid(s0, bufs[i].target);
      DecLocalTold(s0, bufs[i].target, true);
      DecLocalExact(s0, bufs[i].target, true);
      Store(DecNode(St(), bufs[i].target, true, false));
      GoneIdle(s0, St(), Some(NodeStrong(bufs[i].target)));
      BufsUpdated(bufs, i, bufs[i].(strong := false), dying);
      bufs := bufs[i := bufs[i].(strong := false)];
    }

    /** The next object of a buffer that is being released. */
    method ReleaseNext(i: nat)
      requires Valid() && i < |bufs| && bufs[i].phase in {Failing, Freeing} && bufs[i].outs != []
      modifies this`nodes, this`refs, this`ctx, this`bufs
      ensures Valid() && bufs == old(bufs)[i := old(bufs[i]).(outs := old(bufs[i]).outs[1..])]
      ensures var b := old(bufs[i]);
              && Wf(old(St())) && DescsApart(old(St())) && St() == ReleaseOne(old(St()), b.target.owner, b.outs[0])
              && var cell := ReleasedCell(old(St()), b.target.owner, b.outs[0]);
                 && (if cell.Some? then Shifted(old(St()), St(), cell.value, -1) else St() == old(St()))
                 && VanishedIdle(old(St()), St(), cell) && MarksKept(old(St()), St())
    {
      hide Inv, AllTold, Wf, Backed, BufsOk, Owners, ReleaseOne, ReleasedCell, Shifted, VanishedIdle, MarksKept;
      ghost var s0 := St();
      BufAt(bufs, i, dying);
      InvWf(s0);
      DescsOf(s0);
      ReleaseStep(s0, bufs, dying, i);
      ReleaseOneTold(s0, bufs[i].target.owner, bufs[i].outs[0]);
      ReleaseOneMarks(s0, bufs[i].target.owner, bufs[i].outs[0]);
      ReleaseLinks(s0, bufs[i].target.owner, bufs[i].outs[0]);
      Store(ReleaseOne(St(), bufs[i].target.owner, bufs[i].outs[0]));
      SameCountsRefl(s0);
      GoneIdle(s0, St(), ReleasedCell(s0, bufs[i].target.owner, bufs[i].outs[0]));
      BufsUpdated(bufs, i, bufs[i].(outs := bufs[i].outs[1..]), dying);
      bufs := bufs[i := bufs[i].(outs := bufs[i].outs[1..])];
    }

    /** binder_dec_node_tmpref at the sender's end: after the transaction was accepted, or after its release. */
    method PutTarget(i: nat)
      requires Valid() && i < |bufs| && bufs[i].tmp
      requires bufs[i].phase in {Accepted, Freeing} || (bufs[i].phase == Failing && !bufs[i].strong && bufs[i].outs == [])
      modifies this`nodes, this`refs, this`ctx, this`bufs
      ensures Valid() && bufs == old(bufs)[i := old(bufs[i]).(tmp := false)]
      ensures var n := old(bufs[i]).target;
              && n in old(nodes) && St() == PutNode(old(St()), n)
              && Shifted(old(St()), St(), NodeTmp(n), -1) && VanishedIdle(old(St()), St(), Some(NodeTmp(n)))
              && LostOne(old(St()), St(), n, old(nodes)[n].(tmpRefs := old(nodes)[n].tmpRefs - 1))
    {
      hide Inv, AllTold, Backed, BufsOk, Owners, PutNode, Shifted, VanishedIdle, LostOne;
      ghost var s0 := St();
      BufAt(bufs, i, dying);
      PutStep(s0, bufs, dying, i);
      PutNodeTold(s0, bufs[i].target);
      PutNodeExact(s0, bufs[i].target);
      PutKeepsFlagged(s0, bufs[i].target);
      Store(PutNode(St(), bufs[i].target));
      GoneIdle(s0, St(), Some(NodeTmp(bufs[i].target)));
      BufsUpdated(bufs, i, bufs[i].(tmp := false), dying);
      bufs := bufs[i := bufs[i].(tmp := false)];
    }

    /** A buffer that holds nothing any more is gone. */
    method Retire(i: nat)
      requires Valid() && i < |bufs| && !bufs[i].strong && !bufs[i].tmp && bufs[i].outs == []
      modifies this`bufs
      ensures Valid() && bufs == old(bufs)[..i] + old(bufs)[i + 1..]
    {
      hide Inv, AllTold, Backed, Owners;
      forall c ensures Total(Without(bufs, i), c) <= Total(bufs, c) { TotalWithout(bufs, i, c); }
      FewerClaims(St(), bufs, Without(bufs, i), dying);
      bufs := Without(bufs, i);
    }

    // ---- The loops ----

    /** The object loop of binder_transaction, when nothing comes in between. */
    method TranslateObjects(i: nat, objs: seq<Obj>, envs: seq<Env>) returns (ok: bool)
      requires Valid() && |envs| == |objs| && i < |bufs| && bufs[i].phase == Building
      modifies this`nodes, this`refs, this`ctx, this`bufs
      ensures Valid()
      ensures var b := old(bufs[i]); var (s', outs) := old(Translate(St(), bufs[i].from, bufs[i].target.owner, objs, envs));
              St() == s' && bufs == old(bufs)[i := b.(outs := b.outs + outs)] && (ok <==> |outs| == |objs|)
    {
      hide Inv, AllTold, TranslateOne, Backed, BufsOk, Owners, Translate;
      var j := 0;
      ghost var s0, b := St(), bufs[i];
      ghost var outs: seq<Obj> := [];
      TranslatedFrom(s0, b.from, b.target.owner, objs, envs);
      assert b.outs + [] == b.outs;
      assert bufs == bufs[i := b.(outs := b.outs + [])];
      while j < |objs|
        invariant 0 <= j <= |objs| && Valid() && |outs| == j
        invariant i < |old(bufs)| && bufs == old(bufs)[i := b.(outs := b.outs + outs)]
        invariant Sofar(s0, St(), b.from, b.target.owner, objs, envs, j, outs)
      {
        ghost var s1 := St();
        ok := TranslateNext(i, objs[j], envs[j]);
        TranslatedNext(s0, s1, b.from, b.target.owner, objs, envs, j, outs);
        if !ok { return; }
        ghost var r := TranslateOne(s1, b.from, b.target.owner, objs[j], envs[j]).1.value;
        assert b.outs + outs + [r] == b.outs + (outs + [r]);
        outs := outs + [r];
        j := j + 1;
      }
      TranslatedAll(s0, St(), b.from, b.target.owner, objs, envs, outs);
      ok := true;
    }

    /** binder_transaction_buffer_release, when nothing comes in between. */
    method ReleaseAll(i: nat)
      requires Valid() && i < |bufs| && bufs[i].phase in {Failing, Freeing} && bufs[i].strong
      modifies this`nodes, this`refs, this`ctx, this`bufs
      ensures Valid() && bufs == old(bufs)[i := old(bufs[i]).(strong := false, outs := [])]
      ensures var b := old(bufs[i]); b.target in old(nodes) && Wf(old(St())) && St() == ReleaseBuffer(old(St()), b.target, b.target.owner, b.outs)
    {
      hide Inv, AllTold, Wf, ReleaseOne, Backed, BufsOk, Owners, DecNode, Shifted, VanishedIdle, ReleasedCell;
      ghost var b, s0 := bufs[i], St();
      InvWf(s0);
      ReleaseTarget(i);
      DecNodeWf(s0, b.target, true, false);
      ghost var s1 := St();
      while bufs[i].outs != []
        invariant Valid() && i < |bufs| && |bufs| == |old(bufs)| && Wf(St())
        invariant bufs == old(bufs)[i := b.(strong := false, outs := bufs[i].outs)]
        invariant Release(St(), b.target.owner, bufs[i].outs) == Release(s1, b.target.owner, b.outs)
        decreases |bufs[i].outs|
      {
        ReleaseNext(i);
      }
    }

    // ---- The death of a process ----

    /** binder_deferred_release begins; no thread of the process is inside the driver. */
    method BeginDeath(p: Pid)
      requires Valid() && forall b :: b in bufs ==> !(b.from == p && b.phase in {Building, Failing}) && !(b.target.owner == p && b.phase == Freeing)
      modifies this`ctx, this`dying
      ensures Valid() && dying == old(dying) + {p}
      ensures ctx == if old(ctx).Some? && old(ctx).value.owner == p then None else old(ctx)
    {
      hide Inv, AllTold, Backed, Owners;
      DyingStep(St(), bufs, dying, p);
      CtxTold(St(), None);
      if ctx.Some? && ctx.value.owner == p { ctx := None; }
      dying := dying + {p};
    }

    /** One node of a dying process: it goes if nothing links to it and nobody holds it, and dies otherwise. */
    method ReleaseNode(n: Nid)
      requires Valid() && n in nodes && n.owner in dying && !nodes[n].dead
      modifies this`nodes, this`refs, this`ctx
      ensures Valid() && refs == old(refs) && ctx == old(ctx)
      ensures n !in nodes <==> Links(old(St()), n) == {} && old(nodes)[n].tmpRefs == 0
      ensures nodes == if n in nodes then old(nodes)[n := old(nodes)[n].(dead := true, localStrong := 0, localWeak := 0, queued := false)] else old(nodes) - {n}
    {
      hide Inv, AllTold, Backed, BufsOk, NodeReleased, Solid;
      NotTheManager(St(), dying, n);
      NodeReleasedExact(St(), n);
      ReleasedNodeStep(St(), bufs, dying, n);
      InvSolid(St(), n);
      NodeReleasedTold(St(), n);
      Store(NodeReleased(St(), n));
    }

    /** The reference loop of binder_deferred_release: a dead process keeps none. Counts of nodes stay, and a node goes
        exactly if the process had its last link, nothing else counts, and its owner is dead or was never told. */
    method ReleaseRefs(p: Pid)
      requires Valid() && p in dying
      modifies this`nodes, this`refs, this`ctx
      ensures Valid() && (forall k :: k in refs <==> k in old(refs) && k.p != p) && (forall k :: k in refs ==> refs[k] == old(refs)[k]) && ctx == old(ctx)
      ensures forall n :: n in nodes <==> n in old(nodes) && !(Key(p, n) in old(refs) && Doomed(old(St()), Key(p, n)))
      ensures forall n :: n in nodes ==> Kept(old(nodes)[n], nodes[n])
    {
      hide Inv, AllTold, Cleanup, Backed, BufsOk, Owners, Doomed, Kept;
      ghost var s0 := St();
      var mine := set k | k in refs && k.p == p;
      forall n | n in nodes ensures Kept(nodes[n], nodes[n]) { KeptRefl(nodes[n]); }
      while mine != {}
        invariant Valid() && ctx == s0.ctx
        invariant RefsLeft(s0, St(), p, mine)
        decreases |mine|
      {
        var k :| k in mine;
        ghost var s1 := St();
        KeyNode(s1, k);
        CleanupInv(s1, k);
        CleanupExact(s1, k);
        CleanupTold(s1, k);
        CleanupStep(s1, bufs, dying, k);
        Store(Cleanup(St(), k));
        OneRefLess(s0, s1, St(), p, mine, k);
        mine := mine - {k};
      }
    }

    /** The process's memory goes, once no sender holds it any more. */
    method DropBuffers(p: Pid)
      requires Valid() && p in dying
      modifies this`bufs
      ensures Valid() && bufs == Remaining(old(bufs), p)
      ensures forall b :: b in bufs <==> b in old(bufs) && !(b.target.owner == p && !b.tmp && b.phase == Accepted)
    {
      RemainingFewer(bufs, p, NodeTmp(Nid(p, 0)));
      hide Inv, AllTold, Backed, BufsOk, Owners;
      DropStep(St(), bufs, dying, p);
      bufs := Remaining(bufs, p);
    }
  }

  /** A process has one reference per descriptor. */
  lemma OneDesc(s: State, p: Pid, desc: nat, r: Option<Key>)
    requires DescsApart(s)
    requires r.Some? ==> r.value in s.refs && r.value.p == p && s.refs[r.value].desc == desc
    ensures r.Some? ==> forall k :: k in s.refs && k.p == p && s.refs[k].desc == desc ==> k == r.value
  {
  }

  lemma PrefixStep(outs: seq<Obj>, o: Obj, rest: seq<Obj>)
    ensures outs + ([o] + rest) == outs + [o] + rest
  {
  }

  lemma IncTmpRefs(s: State, n: Nid)
    requires n in s.nodes
    ensures IncTmp(s, n).refs == s.refs && IncTmp(s, n).ctx == s.ctx && Count(IncTmp(s, n), NodeTmp(n)) == s.nodes[n].tmpRefs + 1
    ensures IncTmp(s, n).nodes[n] == s.nodes[n].(tmpRefs := s.nodes[n].tmpRefs + 1)
  {
  }

  lemma IncTmpIs(s: State, n: Nid)
    requires n in s.nodes
    ensures n in IncTmp(s, n).nodes && IncTmp(s, n).nodes[n] == s.nodes[n].(tmpRefs := s.nodes[n].tmpRefs + 1)
    ensures IncTmp(s, n).ctx == s.ctx
  {
  }

  lemma NewNodeRefs(s: State, n: Nid, cookie: nat)
    ensures NewNode(s, n, cookie).refs == s.refs && NewNode(s, n, cookie).ctx == s.ctx
    ensures n in NewNode(s, n, cookie).nodes && !NewNode(s, n, cookie).nodes[n].dead && Count(NewNode(s, n, cookie), NodeTmp(n)) == 1
  {
  }

  lemma ManagerInv(s: State, n: Nid, nd: Node)
    requires Inv(s) && n in s.nodes && s.ctx == None && !s.nodes[n].dead && s.nodes[n].tmpRefs >= 1
    requires nd == s.nodes[n].(localWeak := s.nodes[n].localWeak + 1, localStrong := s.nodes[n].localStrong + 1, hasStrong := true, hasWeak := true)
    ensures Inv(SetNode(s, n, nd).(ctx := Some(n))) && Count(SetNode(s, n, nd).(ctx := Some(n)), NodeTmp(n)) >= 1
  {
    hide DescsApart;
    var s' := SetNode(s, n, nd).(ctx := Some(n));
    forall m | m in s'.nodes ensures NodeOk(s', m) {
      NodeAt(s, m);
      assert Holders(s', m) == Holders(s, m);
    }
    SameDescs(s, s');
  }

  lemma PutKeepsFlagged(s: State, n: Nid)
    requires n in s.nodes
    ensures PutNode(s, n).refs == s.refs && PutNode(s, n).ctx == s.ctx
  {
  }

  lemma ManagerHere(s: State, n: Nid)
    requires Inv(s) && s.ctx == Some(n)
    ensures n in s.nodes && s.nodes[n].localStrong >= 1 && s.nodes[n].localWeak >= 1
  {
    NodeAt(s, n);
  }

  lemma ManagerAlive(s: State)
    requires Inv(s) && s.ctx.Some?
    ensures s.ctx.value in s.nodes && !s.nodes[s.ctx.value].dead
  {
  }

  lemma SameThenShift(a: State, b: State, c: State, cell: Cell, d: int)
    requires SameCounts(a, b) && Shifted(b, c, cell, d)
    ensures Shifted(a, c, cell, d)
  {
  }

  lemma AckInv(s: State, n: Nid, nd: Node, strong: bool)
    requires Inv(s) && n in s.nodes && !s.nodes[n].dead && s.nodes[n].tmpRefs >= 1
    requires if strong then s.nodes[n].pendingStrong else s.nodes[n].pendingWeak
    requires nd == if strong then s.nodes[n].(pendingStrong := false) else s.nodes[n].(pendingWeak := false)
    ensures var s' := SetNode(s, n, nd);
            && Inv(s') && SameCounts(s, s') && Count(s', NodeTmp(n)) >= 1
            && Count(s', NodeCell(n, strong)) >= 1 + Pend(s', NodeCell(n, strong))
  {
    hide Inv, Holders, Links;
    NodeAt(s, n);
    NodeNonNegative(s, n);
    hide NodeOk;
    SetNodeKeeps(s, n, nd);
  }

  lemma AckShift(s: State, s1: State, s2: State, s3: State, s4: State, n: Nid, strong: bool)
    requires Shifted(s, s1, NodeTmp(n), 1) && SameCounts(s1, s2) && Shifted(s2, s3, NodeCell(n, strong), -1) && Shifted(s3, s4, NodeTmp(n), -1)
    ensures Shifted(s, s4, NodeCell(n, strong), -1)
  {
    forall c ensures Count(s4, c) == Count(s, c) + if c == NodeCell(n, strong) then -1 else 0 {
      assert Count(s1, c) == Count(s, c) + if c == NodeTmp(n) then 1 else 0;
      assert Count(s2, c) == Count(s1, c);
      assert Count(s3, c) == Count(s2, c) + if c == NodeCell(n, strong) then -1 else 0;
    }
  }

  lemma ManagerCounts(s: State, n: Nid)
    requires Inv(s) && n in s.nodes && !s.nodes[n].dead && s.nodes[n].localStrong == 0
    ensures s.ctx != Some(n)
  {
    NodeAt(s, n);
  }

  lemma WorkInv(s: State, n: Nid, nd: Node)
    requires Inv(s) && n in s.nodes && !s.nodes[n].dead
    requires nd.dead == s.nodes[n].dead && nd.internalStrong == s.nodes[n].internalStrong && nd.tmpRefs == s.nodes[n].tmpRefs
    requires nd.localStrong == s.nodes[n].localStrong + (if nd.pendingStrong && !s.nodes[n].pendingStrong then 1 else 0)
             || (nd.localStrong == s.nodes[n].localStrong + 1 && nd.pendingStrong)
    requires nd.pendingStrong == s.nodes[n].pendingStrong || nd.localStrong == s.nodes[n].localStrong + 1
    requires nd.localWeak == s.nodes[n].localWeak + (if nd.pendingWeak && !s.nodes[n].pendingWeak then 1 else 0)
             || (nd.localWeak == s.nodes[n].localWeak + 1 && nd.pendingWeak)
    requires nd.pendingWeak == s.nodes[n].pendingWeak || nd.localWeak == s.nodes[n].localWeak + 1
    ensures Inv(SetNode(s, n, nd))
  {
    NodeAt(s, n);
    hide Inv, NodeOk;
    SetNodeKeeps(s, n, nd) by { NodeNonNegative(s, n); }
  }

  // ---- Steps of the class ----

  lemma OwnedAlive(s: State, dying: set<Pid>, n: Nid)
    requires Owners(s, dying) && n.owner !in dying
    ensures n in s.nodes ==> !s.nodes[n].dead
  {
  }

  lemma BufAt(bufs: seq<Buf>, i: nat, dying: set<Pid>)
    requires BufsOk(bufs, dying) && i < |bufs|
    ensures BufOk(bufs[i], dying)
  {
  }

  lemma BufsAdded(bufs: seq<Buf>, b: Buf, dying: set<Pid>)
    requires BufsOk(bufs, dying) && BufOk(b, dying)
    ensures BufsOk(bufs + [b], dying)
  {
  }

  /** What BINDER_SET_CONTEXT_MGR makes of the table. */
  function ManagerSet(s: State, n: Nid, cookie: nat): State {
    var s1 := if n in s.nodes then IncTmp(s, n) else NewNode(s, n, cookie);
    var nd := s1.nodes[n];
    PutNode(SetNode(s1, n, nd.(localWeak := nd.localWeak + 1, localStrong := nd.localStrong + 1, hasStrong := true, hasWeak := true)).(ctx := Some(n)), n)
  }

  lemma ManagerStep(s: State, bufs: seq<Buf>, dying: set<Pid>, n: Nid, cookie: nat)
    requires Inv(s) && Backed(s, bufs, dying) && Owners(s, dying) && n.owner !in dying && s.ctx == None && (n in s.nodes ==> !s.nodes[n].dead)
    ensures var s' := ManagerSet(s, n, cookie);
            && Inv(s') && Backed(s', bufs, dying) && Owners(s', dying) && s'.refs == s.refs && s'.ctx == Some(n)
            && n in s'.nodes && s'.nodes[n].localStrong >= 1 && s'.nodes[n].localWeak >= 1
            && forall c :: Count(s', c) == Count(s, c) + if c in {NodeStrong(n), NodeWeak(n)} then 1 else 0
  {
    hide Inv, IncTmp, NewNode, PutNode, Backed, Owners, Pend, NodesFrom, Count, Shifted, Persist;
    var s1 := if n in s.nodes then IncTmp(s, n) else NewNode(s, n, cookie);
    ManagerReady(s, n, cookie);
    var nd := s1.nodes[n];
    var nd' := nd.(localWeak := nd.localWeak + 1, localStrong := nd.localStrong + 1, hasStrong := true, hasWeak := true);
    var s2 := SetNode(s1, n, nd').(ctx := Some(n));
    ManagerInv(s1, n, nd');
    PutNodeShifts(s2, n);
    PutKeepsFlagged(s2, n);
    var s' := PutNode(s2, n);
    ManagerHere(s', n);
    ManagerCells(s, s1, s2, s', n, nd');
    ManagerNodes(s, n, cookie, dying);
    OwnStep(s, s', bufs, dying, n);
  }

  lemma ManagerReady(s: State, n: Nid, cookie: nat)
    requires Inv(s) && s.ctx == None && (n in s.nodes ==> !s.nodes[n].dead)
    ensures var s1 := if n in s.nodes then IncTmp(s, n) else NewNode(s, n, cookie);
            && Inv(s1) && Shifted(s, s1, NodeTmp(n), 1) && Persist(s, s1) && s1.refs == s.refs && s1.ctx == None
            && n in s1.nodes && !s1.nodes[n].dead && s1.nodes[n].tmpRefs >= 1
  {
    hide Inv, Shifted, Persist;
    if n in s.nodes { IncTmpShifts(s, n); IncTmpNode(s, n); IncTmpRefs(s, n); } else { NewNodeShifts(s, n, cookie); NewNodeRefs(s, n, cookie); }
  }

  lemma ManagerCells(s: State, s1: State, s2: State, s': State, n: Nid, nd: Node)
    requires Shifted(s, s1, NodeTmp(n), 1) && Persist(s, s1) && n in s1.nodes && s1.ctx == None
    requires nd == s1.nodes[n].(localWeak := s1.nodes[n].localWeak + 1, localStrong := s1.nodes[n].localStrong + 1, hasStrong := true, hasWeak := true)
    requires s2 == SetNode(s1, n, nd).(ctx := Some(n)) && Shifted(s2, s', NodeTmp(n), -1) && Persist(s2, s')
    ensures forall c :: Count(s', c) == Count(s, c) + if c in {NodeStrong(n), NodeWeak(n)} then 1 else 0
    ensures forall c :: Pend(s', c) <= Pend(s, c) + if c in {NodeStrong(n), NodeWeak(n)} then 1 else 0
  {
    hide Shifted;
    forall c ensures Count(s', c) == Count(s, c) + if c in {NodeStrong(n), NodeWeak(n)} then 1 else 0 {
      ManagerCount(s1, s2, n, nd, c);
      ShiftAt(s, s1, NodeTmp(n), 1, c);
      ShiftAt(s2, s', NodeTmp(n), -1, c);
    }
    forall c ensures Pend(s', c) <= Pend(s, c) + if c in {NodeStrong(n), NodeWeak(n)} then 1 else 0 {
      PendPersist(s, s1, c);
      PendPersist(s2, s', c);
      ManagerCount(s1, s2, n, nd, c);
    }
  }

  lemma ShiftAt(s: State, s': State, cell: Cell, d: int, c: Cell)
    requires Shifted(s, s', cell, d)
    ensures Count(s', c) == Count(s, c) + if c == cell then d else 0
  {
  }

  lemma ManagerCount(s1: State, s2: State, n: Nid, nd: Node, c: Cell)
    requires n in s1.nodes && s1.ctx == None && s2 == SetNode(s1, n, nd).(ctx := Some(n))
    requires nd == s1.nodes[n].(localWeak := s1.nodes[n].localWeak + 1, localStrong := s1.nodes[n].localStrong + 1, hasStrong := true, hasWeak := true)
    ensures Count(s2, c) == Count(s1, c) + if c in {NodeStrong(n), NodeWeak(n)} then 1 else 0
    ensures Pend(s2, c) <= Pend(s1, c) + if c in {NodeStrong(n), NodeWeak(n)} then 1 else 0
  {
  }

  lemma ManagerNodes(s: State, n: Nid, cookie: nat, dying: set<Pid>)
    requires n.owner !in dying && s.ctx == None && (n in s.nodes ==> !s.nodes[n].dead)
    ensures NodesFrom(s, ManagerSet(s, n, cookie), dying)
  {
    hide DecNode;
    var s1 := if n in s.nodes then IncTmp(s, n) else NewNode(s, n, cookie);
    var nd := s1.nodes[n];
    var s2 := SetNode(s1, n, nd.(localWeak := nd.localWeak + 1, localStrong := nd.localStrong + 1, hasStrong := true, hasWeak := true)).(ctx := Some(n));
    PutNodes(s2, n);
  }

  /** A reference of p to a node is made if missing, and counted up if the node allows it. */
  lemma LinkStep(s: State, bufs: seq<Buf>, dying: set<Pid>, k: Key, strong: bool, memOk: bool)
    requires Inv(s) && k.n in s.nodes && Backed(s, bufs, dying) && Owners(s, dying)
    ensures Backed(IncRefForNode(s, k, strong, false, memOk).0, bufs, dying) && Owners(IncRefForNode(s, k, strong, false, memOk).0, dying)
  {
    hide Inv, IncRefForNode, Backed, Owners, Shifted, SameCounts, Count, Pend, Holders;
    IncRefForNodeShifts(s, k, strong, false, memOk);
    IncRefPend(s, k, strong, false, memOk);
    IncRefNodes(s, k, strong, false, memOk);
    var (s', d) := IncRefForNode(s, k, strong, false, memOk);
    if d.Some? { ShiftedAside(s, s', RefCell(k, strong), 1); } else { SameAside(s, s'); }
    RefStep(s, s', bufs, dying);
  }

  lemma IncStep(s: State, bufs: seq<Buf>, dying: set<Pid>, k: Key, strong: bool)
    requires Inv(s) && k in s.refs && k.n in s.nodes && Backed(s, bufs, dying) && Owners(s, dying)
    ensures Backed(IncRef(s, k, strong, false).0, bufs, dying) && Owners(IncRef(s, k, strong, false).0, dying)
  {
    hide Inv, IncRef, Backed, Owners;
    LinkStep(s, bufs, dying, k, strong, true);
    assert IncRefForNode(s, k, strong, false, true).0 == IncRef(s, k, strong, false).0;
  }

  lemma DecStep1(s: State, bufs: seq<Buf>, dying: set<Pid>, k: Key, strong: bool)
    requires Inv(s) && k in s.refs && k.n in s.nodes && Backed(s, bufs, dying) && Owners(s, dying)
    ensures Backed(DecRef(s, k, strong), bufs, dying) && Owners(DecRef(s, k, strong), dying)
  {
    hide Inv, DecRef, Backed, Owners, Shifted, Pend;
    DecRefShifts(s, k, strong);
    DecRefPend(s, k, strong);
    DecRefFlags(s, k, strong);
    var s' := DecRef(s, k, strong);
    if Count(s, RefCell(k, strong)) > 0 {
      ShiftedAside(s, s', RefCell(k, strong), -1);
      RefStep(s, s', bufs, dying);
    }
  }

  lemma SettledStep(s: State, s': State, bufs: seq<Buf>, dying: set<Pid>)
    requires Backed(s, bufs, dying) && Owners(s, dying) && SameCounts(s, s') && Persist(s, s') && Tame(s, s')
    ensures Backed(s', bufs, dying) && Owners(s', dying)
  {
    hide Backed, Owners, Persist, SameCounts, Pend, Count;
    forall c ensures Pend(s', c) <= Pend(s, c) { PendPersist(s, s', c); }
    SameAside(s, s');
    RefStep(s, s', bufs, dying);
  }

  lemma AckStep(s: State, bufs: seq<Buf>, dying: set<Pid>, n: Nid, strong: bool, s2: State, s3: State)
    requires Backed(s, bufs, dying) && Owners(s, dying) && n in s.nodes && !s.nodes[n].dead && n.owner !in dying
    requires if strong then s.nodes[n].pendingStrong else s.nodes[n].pendingWeak
    requires var nd := IncTmp(s, n).nodes[n];
             s2 == SetNode(IncTmp(s, n), n, if strong then nd.(pendingStrong := false) else nd.(pendingWeak := false))
    requires s3 == DecNode(s2, n, strong, false) && n in s3.nodes && Persist(s2, s3) && Persist(s3, PutNode(s3, n))
    requires Shifted(s, PutNode(s3, n), NodeCell(n, strong), -1)
    ensures Backed(PutNode(s3, n), bufs, dying) && Owners(PutNode(s3, n), dying)
  {
    hide Backed, Owners, Persist, DecNode, PutNode, Shifted, Count, Pend, IncTmp, NodesFrom, Tame;
    var s' := PutNode(s3, n);
    AckTame(s, n, strong, s2, s3);
    forall c: Cell ensures Count(s', c) == Count(s, c) + if c == NodeCell(n, strong) then -1 else 0 { ShiftAt(s, s', NodeCell(n, strong), -1, c); }
    forall c: Cell ensures Pend(s', c) <= Pend(s, c) - if c == NodeCell(n, strong) then 1 else 0 {
      AckPend(s, n, strong, s2, c);
      PendPersist(s2, s3, c);
      PendPersist(s3, s', c);
    }
    OwnStep(s, s', bufs, dying, n);
  }

  lemma AckPend(s: State, n: Nid, strong: bool, s2: State, c: Cell)
    requires n in s.nodes && !s.nodes[n].dead && if strong then s.nodes[n].pendingStrong else s.nodes[n].pendingWeak
    requires var nd := IncTmp(s, n).nodes[n];
             s2 == SetNode(IncTmp(s, n), n, if strong then nd.(pendingStrong := false) else nd.(pendingWeak := false))
    ensures Pend(s2, c) == Pend(s, c) - if c == NodeCell(n, strong) then 1 else 0
  {
  }

  lemma AckTame(s: State, n: Nid, strong: bool, s2: State, s3: State)
    requires n in s.nodes
    requires var nd := IncTmp(s, n).nodes[n];
             s2 == SetNode(IncTmp(s, n), n, if strong then nd.(pendingStrong := false) else nd.(pendingWeak := false))
    requires s3 == DecNode(s2, n, strong, false) && n in s3.nodes
    ensures PutNode(s3, n).ctx == s.ctx && forall dying :: NodesFrom(s, PutNode(s3, n), dying)
  {
    hide DecNode, PutNode;
    DecNodeFlags(s2, n, strong, false);
    PutNodes(s3, n);
  }

  lemma DroppedStep(s: State, bufs: seq<Buf>, dying: set<Pid>, n: Nid)
    requires Backed(s, bufs, dying) && Owners(s, dying) && n in s.nodes && n.owner !in dying
    requires s.nodes[n].localStrong == 0 && s.nodes[n].localWeak == 0 && s.nodes[n].tmpRefs == 0
    ensures Backed(s.(nodes := s.nodes - {n}), bufs, dying) && Owners(s.(nodes := s.nodes - {n}), dying)
    ensures SameCounts(s, s.(nodes := s.nodes - {n}))
  {
    hide Backed, Owners;
    OwnStep(s, s.(nodes := s.nodes - {n}), bufs, dying, n);
  }

  lemma WorkStep(s: State, bufs: seq<Buf>, dying: set<Pid>, n: Nid, nd: Node)
    requires Backed(s, bufs, dying) && Owners(s, dying) && n in s.nodes && n.owner !in dying
    requires nd.dead == s.nodes[n].dead && nd.tmpRefs == s.nodes[n].tmpRefs
    requires (nd.localStrong == s.nodes[n].localStrong && nd.pendingStrong == s.nodes[n].pendingStrong) || nd.localStrong == s.nodes[n].localStrong + 1
    requires (nd.localWeak == s.nodes[n].localWeak && nd.pendingWeak == s.nodes[n].pendingWeak) || nd.localWeak == s.nodes[n].localWeak + 1
    ensures Backed(SetNode(s, n, nd), bufs, dying) && Owners(SetNode(s, n, nd), dying)
  {
    hide Backed, Owners;
    OwnStep(s, SetNode(s, n, nd), bufs, dying, n);
  }

  /** What a command on references keeps. */
  ghost predicate Sound(s0: State, s: State, bufs: seq<Buf>, dying: set<Pid>) {
    Inv(s) && AllTold(s) && Backed(s, bufs, dying) && Owners(s, dying) && MarksKept(s0, s) && NewRefs(s0, s)
  }

  lemma LinkSound(s: State, bufs: seq<Buf>, dying: set<Pid>, k: Key, strong: bool, memOk: bool)
    requires Inv(s) && AllTold(s) && k.n in s.nodes && Backed(s, bufs, dying) && Owners(s, dying)
    ensures var (s', d) := IncRefForNode(s, k, strong, false, memOk);
            && Sound(s, s', bufs, dying) && s'.nodes.Keys == s.nodes.Keys && s.refs.Keys <= s'.refs.Keys
            && (if d.Some? then Shifted(s, s', RefCell(k, strong), 1) else SameCounts(s, s'))
  {
    hide Inv, AllTold, Backed, Owners, MarksKept, NewRefs, IncRefForNode, Shifted, SameCounts, Solid;
    LinkStep(s, bufs, dying, k, strong, memOk);
    IncRefForNodeShifts(s, k, strong, false, memOk);
    InvSolid(s, k.n);
    IncRefForNodeTold(s, k, strong, false, memOk);
    IncRefForNodeMarks(s, k, strong, false, memOk);
    IncRefForNodeNew(s, k, strong, false, memOk);
  }

  lemma IncSound(s0: State, s: State, bufs: seq<Buf>, dying: set<Pid>, k: Key, strong: bool)
    requires Sound(s0, s, bufs, dying) && k in s.refs && k.n in s.nodes && s.nodes.Keys == s0.nodes.Keys && s0.refs.Keys <= s.refs.Keys
    ensures var (s', ok) := IncRef(s, k, strong, false);
            && Sound(s0, s', bufs, dying) && s'.nodes.Keys == s.nodes.Keys
            && (if ok then Shifted(s, s', RefCell(k, strong), 1) else SameCounts(s, s'))
  {
    hide Inv, AllTold, Backed, Owners, MarksKept, NewRefs, IncRef, Shifted, SameCounts, Solid;
    IncStep(s, bufs, dying, k, strong);
    IncRefShifts(s, k, strong, false);
    InvSolid(s, k.n);
    IncRefTold(s, k, strong, false);
    IncRefMarks(s, k, strong, false);
    MarksTrans(s0, s, IncRef(s, k, strong, false).0);
    IncRefKeys(s, k, strong);
    NewRefsLater(s0, s, IncRef(s, k, strong, false).0);
  }

  lemma DecSound(s: State, bufs: seq<Buf>, dying: set<Pid>, k: Key, strong: bool)
    requires Inv(s) && AllTold(s) && k in s.refs && k.n in s.nodes && Backed(s, bufs, dying) && Owners(s, dying)
    ensures var s' := DecRef(s, k, strong);
            && Sound(s, s', bufs, dying) && LinksStay(s, s', Some(RefCell(k, strong)))
            && (if Count(s, RefCell(k, strong)) > 0 then Shifted(s, s', RefCell(k, strong), -1) else s' == s)
  {
    hide Inv, AllTold, Backed, Owners, MarksKept, NewRefs, DecRef, Shifted, LinksStay;
    DecStep1(s, bufs, dying, k, strong);
    DecRefShifts(s, k, strong);
    DecRefTold(s, k, strong);
    DecRefMarks(s, k, strong);
    NoNewRefs(s, DecRef(s, k, strong));
    DecRefLinks(s, k, strong);
  }

  lemma IncRefKeys(s: State, k: Key, strong: bool)
    requires k in s.refs && k.n in s.nodes
    ensures IncRef(s, k, strong, false).0.refs.Keys == s.refs.Keys && forall l :: l in s.refs ==> IncRef(s, k, strong, false).0.refs[l].desc == s.refs[l].desc
  {
    hide IncNode;
    IncNodeMarks(s, k.n, strong, true, false);
  }

  lemma NewRefsLater(s: State, s1: State, s': State)
    requires NewRefs(s, s1) && s'.refs.Keys == s1.refs.Keys && forall l :: l in s1.refs ==> s'.refs[l].desc == s1.refs[l].desc
    ensures NewRefs(s, s')
  {
    forall k | k in s'.refs && k !in s.refs ensures NextDesc(s, k, s'.refs[k].desc) { assert k in s'.refs.Keys; }
  }

  // ---- Owners stay told ----

  lemma CtxTold(s: State, ctx: Option<Nid>)
    requires AllTold(s)
    ensures AllTold(s.(ctx := ctx))
  {
    forall n | n in s.nodes ensures Told(s.(ctx := ctx), n) {
      assert Told(s, n);
      assert Links(s.(ctx := ctx), n) == Links(s, n);
    }
  }

  lemma ManagerTold(s: State, n: Nid, cookie: nat)
    requires Inv(s) && AllTold(s) && s.ctx == None && (n in s.nodes ==> !s.nodes[n].dead)
    ensures AllTold(ManagerSet(s, n, cookie))
    ensures var s' := ManagerSet(s, n, cookie);
            && (forall m :: m in s'.nodes && m != n ==> m in s.nodes && s'.nodes[m] == s.nodes[m])
            && (n in s'.nodes ==> s'.nodes[n].hasStrong && s'.nodes[n].hasWeak && s'.nodes[n].cookie == if n in s.nodes then s.nodes[n].cookie else cookie)
  {
    hide Inv, AllTold, Links, DecNode, Told;
    var s1 := if n in s.nodes then IncTmp(s, n) else NewNode(s, n, cookie);
    RefsToNodes(s);
    if n in s.nodes { InvSolid(s, n); IncTmpTold(s, n); } else { NewNodeTold(s, n, cookie); }
    var nd := s1.nodes[n];
    var nd' := nd.(localWeak := nd.localWeak + 1, localStrong := nd.localStrong + 1, hasStrong := true, hasWeak := true);
    HeldTold(s1, n, nd');
    var s2 := SetNode(s1, n, nd').(ctx := Some(n));
    CtxTold(SetNode(s1, n, nd'), Some(n));
    PutNodeTold(s2, n);
    DecIs(SetNode(s2, n, nd'.(tmpRefs := nd'.tmpRefs - 1)), n, false, true);
  }

  lemma HeldTold(s: State, n: Nid, nd: Node)
    requires AllTold(s) && n in s.nodes && nd.hasStrong && nd.hasWeak && nd.localStrong > 0
    ensures AllTold(SetNode(s, n, nd))
  {
    ToldAt(s, n);
    SameLinks(s, n, nd, n);
    SetNodeTold(s, n, nd);
  }

  lemma GivenBackIs(s: State, n: Nid)
    requires n in s.nodes
    ensures n in IncTmp(s, n).nodes
    ensures var s' := PutNode(IncTmp(s, n), n);
            && (forall m :: m != n ==> (m in s'.nodes <==> m in s.nodes) && (m in s.nodes ==> s'.nodes[m] == s.nodes[m]))
            && (n in s'.nodes ==> s'.nodes[n] == s.nodes[n].(queued := s'.nodes[n].queued))
  {
    hide DecNode;
    var s1 := IncTmp(s, n);
    DecIs(SetNode(s1, n, s1.nodes[n].(tmpRefs := s1.nodes[n].tmpRefs - 1)), n, false, true);
  }

  /** The state after BC_INCREFS_DONE or BC_ACQUIRE_DONE has cleared its mark. */
  function Cleared(s: State, n: Nid, strong: bool): State
    requires n in s.nodes
  {
    var nd := s.nodes[n].(tmpRefs := s.nodes[n].tmpRefs + 1);
    SetNode(IncTmp(s, n), n, if strong then nd.(pendingStrong := false) else nd.(pendingWeak := false))
  }

  lemma AckTold(s: State, n: Nid, strong: bool)
    requires AllTold(s) && n in s.nodes && Solid(s, n)
    ensures var s2 := Cleared(s, n, strong); var s3 := DecNode(s2, n, strong, false); n in s3.nodes ==> AllTold(PutNode(s3, n))
  {
    hide AllTold, DecNode, PutNode, Links, Told;
    IncTmpTold(s, n);
    var s1 := IncTmp(s, n);
    var s2 := Cleared(s, n, strong);
    SameLinks(s1, n, s2.nodes[n], n);
    MarkedTold(s1, n, s2.nodes[n]);
    DecLocalTold(s2, n, strong);
    var s3 := DecNode(s2, n, strong, false);
    if n in s3.nodes { PutNodeTold(s3, n); }
  }

  lemma AckIs(s: State, n: Nid, strong: bool)
    requires n in s.nodes
    ensures var s2 := Cleared(s, n, strong); var s3 := DecNode(s2, n, strong, false);
            n in s3.nodes ==>
              var s' := PutNode(s3, n);
              && (forall m :: m != n ==> (m in s'.nodes <==> m in s.nodes) && (m in s.nodes ==> s'.nodes[m] == s.nodes[m]))
              && (n in s'.nodes ==>
                    var nd := s.nodes[n].(queued := s'.nodes[n].queued);
                    s'.nodes[n] == if strong then nd.(pendingStrong := false, localStrong := nd.localStrong - 1)
                                   else nd.(pendingWeak := false, localWeak := nd.localWeak - 1))
  {
    hide DecNode;
    var s2 := Cleared(s, n, strong);
    DecIs(s2, n, strong, false);
    var s3 := DecNode(s2, n, strong, false);
    if n in s3.nodes { DecIs(SetNode(s3, n, s3.nodes[n].(tmpRefs := s3.nodes[n].tmpRefs - 1)), n, false, true); }
  }

  /** What node work reports is how things are. */
  lemma WorkTold(s: State, n: Nid, nd: Node)
    requires AllTold(s) && n in s.nodes && Solid(s, n)
    requires nd.internalStrong == s.nodes[n].internalStrong && nd.tmpRefs == s.nodes[n].tmpRefs && !nd.queued
    requires nd.hasStrong <==> nd.internalStrong != 0 || nd.localStrong != 0
    requires nd.hasWeak <==> Links(s, n) != {} || nd.localWeak != 0 || nd.tmpRefs != 0 || nd.hasStrong
    ensures AllTold(SetNode(s, n, nd))
  {
    ToldAt(s, n);
    SameLinks(s, n, nd, n);
    forall k | k in s.refs && k.n == n ensures nd.hasWeak { Linking(s, k); }
    SetNodeTold(s, n, nd);
  }

  lemma SendToIs(s: State, n: Nid)
    requires n in s.nodes && !s.nodes[n].dead
    ensures var nd := s.nodes[n];
            SendTo(s, n) == s.(nodes := s.nodes[n := nd.(localStrong := nd.localStrong + 1, tmpRefs := nd.tmpRefs + 1)])
  {
  }

  // ---- The references of a dead process ----

  /** How far the loop is: the references in `mine` are still to go. */
  ghost predicate RefsLeft(s0: State, s: State, p: Pid, mine: set<Key>) {
    && (forall k :: k in mine <==> k in s.refs && k.p == p)
    && (forall k :: k in s.refs ==> k in s0.refs && s.refs[k] == s0.refs[k])
    && (forall k :: k in s0.refs && k.p != p ==> k in s.refs)
    && (forall n :: n in s.nodes <==> n in s0.nodes && !(Key(p, n) in s0.refs && Key(p, n) !in mine && Doomed(s0, Key(p, n))))
    && (forall n :: n in s.nodes ==> Kept(s0.nodes[n], s.nodes[n]))
  }

  lemma KeptRefl(nd: Node)
    ensures Kept(nd, nd)
  {
  }

  lemma SameDoom(s0: State, s1: State, p: Pid, mine: set<Key>, k: Key)
    requires RefsLeft(s0, s1, p, mine) && k in mine && k.n in s1.nodes
    ensures k.n in s0.nodes && (Doomed(s1, k) <==> Doomed(s0, k)) && k == Key(p, k.n)
  {
    assert Links(s1, k.n) == Links(s0, k.n);
  }

  lemma OneRefLess(s0: State, s1: State, s2: State, p: Pid, mine: set<Key>, k: Key)
    requires RefsLeft(s0, s1, p, mine) && k in mine && k.n in s1.nodes
    requires s2.refs == s1.refs - {k} && (k.n !in s2.nodes <==> Doomed(s1, k)) && (k.n in s2.nodes ==> Kept(s1.nodes[k.n], s2.nodes[k.n]))
    requires forall n :: n != k.n ==> (n in s2.nodes <==> n in s1.nodes) && (n in s1.nodes ==> s2.nodes[n] == s1.nodes[n])
    ensures RefsLeft(s0, s2, p, mine - {k})
  {
    SameDoom(s0, s1, p, mine, k);
    hide Doomed;
  }

  // ---- The translation loop ----

  /** What is translated so far, and what is still to come, make up the whole translation. */
  ghost predicate Sofar(s0: State, s: State, from: Pid, to_: Pid, objs: seq<Obj>, envs: seq<Env>, j: nat, outs: seq<Obj>)
    requires Inv(s0) && Inv(s) && |envs| == |objs| && j <= |objs|
  {
    Translate(s0, from, to_, objs, envs)
    == (Translate(s, from, to_, objs[j..], envs[j..]).0, outs + Translate(s, from, to_, objs[j..], envs[j..]).1)
  }

  lemma TranslatedFrom(s: State, from: Pid, to_: Pid, objs: seq<Obj>, envs: seq<Env>)
    requires Inv(s) && |envs| == |objs|
    ensures Sofar(s, s, from, to_, objs, envs, 0, [])
  {
    hide Inv, Translate;
    assert objs[0..] == objs && envs[0..] == envs;
    assert [] + Translate(s, from, to_, objs, envs).1 == Translate(s, from, to_, objs, envs).1;
  }

  lemma TranslatedNext(s0: State, s: State, from: Pid, to_: Pid, objs: seq<Obj>, envs: seq<Env>, j: nat, outs: seq<Obj>)
    requires Inv(s0) && Inv(s) && |envs| == |objs| && j < |objs| && Sofar(s0, s, from, to_, objs, envs, j, outs)
    ensures var (s', r) := TranslateOne(s, from, to_, objs[j], envs[j]);
            && Inv(s')
            && if r.Some? then Sofar(s0, s', from, to_, objs, envs, j + 1, outs + [r.value])
               else Translate(s0, from, to_, objs, envs) == (s', outs)
  {
    hide Inv, TranslateOne;
    TranslateKeeps(s, from, to_, objs[j], envs[j]);
    assert objs[j..][1..] == objs[j + 1..] && envs[j..][1..] == envs[j + 1..];
    var (s', r) := TranslateOne(s, from, to_, objs[j], envs[j]);
    if r.Some? {
      PrefixStep(outs, r.value, Translate(s', from, to_, objs[j + 1..], envs[j + 1..]).1);
    } else {
      assert outs + [] == outs;
    }
  }

  lemma TranslatedAll(s0: State, s: State, from: Pid, to_: Pid, objs: seq<Obj>, envs: seq<Env>, outs: seq<Obj>)
    requires Inv(s0) && Inv(s) && |envs| == |objs| && Sofar(s0, s, from, to_, objs, envs, |objs|, outs)
    ensures Translate(s0, from, to_, objs, envs) == (s, outs)
  {
    hide Inv, TranslateOne;
    assert outs + [] == outs;
  }

  // ---- A send that outlives its receiver ----

  /** A transaction is begun, the owner of its target dies, and the transaction fails: nobody holds the node any more,
      yet it stays, with a local strong count of -1. */
  method OverdrawnNode(n: Nid) returns (t: NodeTable)
    requires n.owner == 1
    ensures fresh(t) && t.Valid() && n in t.nodes && t.nodes[n].localStrong == -1 && t.nodes[n].tmpRefs == 0 && t.refs == map[] && t.bufs == []
  {
    hide Inv, Backed, BufsOk, Owners, SendTo, VanishedIdle, Shifted, DecNode, PutNode, Links, Pend;
    t := new NodeTable();
    var r := t.SetContextManager(1, n.ptr, 0, true, true);
    ghost var s0 := t.St();
    assert t.ctx == Some(n) && Count(s0, NodeTmp(n)) == 0;
    ManagerAlive(s0);
    var target := t.BeginSend(2, 0);
    SendHolds(s0, n);
    t.BeginDeath(1);
    t.ReleaseNode(n);
    t.BeginFail(0);
    ghost var s1 := t.St();
    t.ReleaseTarget(0);
    DecNodeRefs(s1, n, true, false);
    ShiftAt(s1, t.St(), NodeStrong(n), -1, NodeStrong(n));
    ShiftAt(s1, t.St(), NodeStrong(n), -1, NodeTmp(n));
    ghost var s2 := t.St();
    t.PutTarget(0);
    PutKeepsFlagged(s2, n);
    ShiftAt(s2, t.St(), NodeTmp(n), -1, NodeStrong(n));
    ShiftAt(s2, t.St(), NodeTmp(n), -1, NodeTmp(n));
    ghost var bs := t.bufs;
    t.Retire(0);
    assert |bs| == 1 && |Without(bs, 0)| == 0;
  }

  lemma SendHolds(s: State, n: Nid)
    requires n in s.nodes && !s.nodes[n].dead
    ensures var s' := SendTo(s, n);
            && s'.nodes.Keys == s.nodes.Keys && s'.refs == s.refs && s'.ctx == s.ctx
            && s'.nodes[n].tmpRefs == s.nodes[n].tmpRefs + 1 && !s'.nodes[n].dead
  {
  }
}
