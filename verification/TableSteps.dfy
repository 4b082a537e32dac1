/** The buffers of transactions that are under way or delivered, what they claim of the nodes' counts, and what the
    steps of the node table keep. */
module TableSteps {
  import opened Words
  import opened NodeRefs
  import opened ObjectRefs
  import opened Conservation

  // ---- A node that goes ----

  predicate CountOf(c: Cell, n: Nid) {
    match c
    case RefStrong(k) => k.n == n
    case RefWeak(k) => k.n == n
    case NodeStrong(m) => m == n
    case NodeWeak(m) => m == n
    case NodeTmp(m) => m == n
  }

  predicate CountedBy(k: Key, lost: Option<Cell>) {
    lost == Some(RefStrong(k)) || lost == Some(RefWeak(k))
  }

  /** A node that is gone had no count left, its own or a reference's, but the one the step took away; and nothing linked
      to it but the reference that this count belonged to. */
  ghost predicate VanishedIdle(s: State, s': State, lost: Option<Cell>) {
    && (forall n, c :: n in s.nodes && n !in s'.nodes && CountOf(c, n) ==> Count(s, c) == if lost == Some(c) then 1 else 0)
    && (forall k :: k in s.refs && k.n in s.nodes && k.n !in s'.nodes ==> CountedBy(k, lost))
  }

  /** No reference goes but the one whose count the step took. */
  ghost predicate LinksStay(s: State, s': State, lost: Option<Cell>) {
    forall k :: k in s.refs && !CountedBy(k, lost) ==> k in s'.refs
  }

  lemma GoneIdle(s: State, s': State, lost: Option<Cell>)
    requires Inv(s') && LinksStay(s, s', lost) && if lost.Some? then Shifted(s, s', lost.value, -1) else SameCounts(s, s')
    ensures VanishedIdle(s, s', lost)
  {
    forall n, c | n in s.nodes && n !in s'.nodes && CountOf(c, n) ensures Count(s, c) == if lost == Some(c) then 1 else 0 {
      assert Count(s', c) == 0;
    }
  }

  lemma GoneGrown(s: State, s': State)
    requires s.nodes.Keys <= s'.nodes.Keys
    ensures forall lost :: VanishedIdle(s, s', lost)
  {
    forall n | n in s.nodes ensures n in s'.nodes { assert n in s.nodes.Keys; }
  }

  // ---- Buffers ----

  /** How far a transaction is: objects are being translated; it is on its way or delivered; it failed and its buffer is
      being released; its buffer is being freed by the receiver. */
  datatype Phase = Building | Accepted | Failing | Freeing

  /** A transaction's buffer: `strong` while it holds the target node's local strong count, `tmp` while the sender holds
      the temporary one, and the translated objects not released yet. */
  datatype Buf = Buf(from: Pid, target: Nid, strong: bool, tmp: bool, phase: Phase, outs: seq<Obj>)

  /** The local count that a translated object stands for. What handles stand for is checked when it is given back. */
  function ObjClaim(to_: Pid, o: Obj, c: Cell): nat {
    if o.Binder? && c == NodeCell(Nid(to_, o.ptr), o.strong) then 1 else 0
  }

  function OutsClaim(to_: Pid, outs: seq<Obj>, c: Cell): nat {
    if outs == [] then 0 else ObjClaim(to_, outs[0], c) + OutsClaim(to_, outs[1..], c)
  }

  function Claim(b: Buf, c: Cell): nat {
    OutsClaim(b.target.owner, b.outs, c)
    + (if b.strong && c == NodeStrong(b.target) then 1 else 0) + (if b.tmp && c == NodeTmp(b.target) then 1 else 0)
  }

  function Total(bufs: seq<Buf>, c: Cell): nat {
    if bufs == [] then 0 else Claim(bufs[0], c) + Total(bufs[1..], c)
  }

  lemma {:induction false} OutsAppend(to_: Pid, outs: seq<Obj>, o: Obj, c: Cell)
    ensures OutsClaim(to_, outs + [o], c) == OutsClaim(to_, outs, c) + ObjClaim(to_, o, c)
  {
    if outs == [] {
      assert [] + [o] == [o] && [o][1..] == [];
    } else {
      assert (outs + [o])[1..] == outs[1..] + [o];
      OutsAppend(to_, outs[1..], o, c);
    }
  }

  lemma {:induction false} TotalConcat(a: seq<Buf>, b: seq<Buf>, c: Cell)
    ensures Total(a + b, c) == Total(a, c) + Total(b, c)
  {
    if a == [] {
      assert a + b == b;
    } else {
      assert (a + b)[1..] == a[1..] + b;
      TotalConcat(a[1..], b, c);
    }
  }

  lemma TotalOne(b: Buf, c: Cell)
    ensures Total([b], c) == Claim(b, c)
  {
    assert [b][1..] == [];
  }

  lemma TotalAppend(bufs: seq<Buf>, b: Buf, c: Cell)
    ensures Total(bufs + [b], c) == Total(bufs, c) + Claim(b, c)
  {
    TotalConcat(bufs, [b], c);
    TotalOne(b, c);
  }

  lemma TotalAt(bufs: seq<Buf>, i: nat, c: Cell)
    requires i < |bufs|
    ensures Total(bufs, c) == Total(bufs[..i], c) + Claim(bufs[i], c) + Total(bufs[i + 1..], c)
  {
    hide Claim, Total;
    assert bufs == bufs[..i] + ([bufs[i]] + bufs[i + 1..]);
    TotalConcat(bufs[..i], [bufs[i]] + bufs[i + 1..], c);
    TotalConcat([bufs[i]], bufs[i + 1..], c);
    TotalOne(bufs[i], c);
  }

  lemma TotalUpdate(bufs: seq<Buf>, i: nat, b: Buf, c: Cell)
    requires i < |bufs|
    ensures Total(bufs[i := b], c) == Total(bufs, c) - Claim(bufs[i], c) + Claim(b, c)
  {
    hide Claim, Total;
    TotalAt(bufs, i, c);
    TotalAt(bufs[i := b], i, c);
    assert bufs[i := b][..i] == bufs[..i] && bufs[i := b][i + 1..] == bufs[i + 1..];
  }

  function Without(bufs: seq<Buf>, i: nat): seq<Buf>
    requires i < |bufs|
  {
    bufs[..i] + bufs[i + 1..]
  }

  lemma TotalWithout(bufs: seq<Buf>, i: nat, c: Cell)
    requires i < |bufs|
    ensures Total(Without(bufs, i), c) == Total(bufs, c) - Claim(bufs[i], c)
  {
    hide Claim, Total;
    TotalAt(bufs, i, c);
    TotalConcat(bufs[..i], bufs[i + 1..], c);
  }

  /** The buffers that are left when a dead process's memory goes: the sender of one on its way still holds that process. */
  function Remaining(bufs: seq<Buf>, p: Pid): seq<Buf> {
    if bufs == [] then []
    else (if bufs[0].target.owner == p && !bufs[0].tmp && bufs[0].phase == Accepted then [] else [bufs[0]]) + Remaining(bufs[1..], p)
  }

  lemma {:induction false} RemainingFewer(bufs: seq<Buf>, p: Pid, c: Cell)
    ensures Total(Remaining(bufs, p), c) <= Total(bufs, c)
    ensures forall b :: b in Remaining(bufs, p) <==> b in bufs && !(b.target.owner == p && !b.tmp && b.phase == Accepted)
  {
    if bufs != [] {
      RemainingFewer(bufs[1..], p, c);
      TotalConcat(if bufs[0].target.owner == p && !bufs[0].tmp && bufs[0].phase == Accepted then [] else [bufs[0]], Remaining(bufs[1..], p), c);
      TotalOne(bufs[0], c);
      assert bufs == [bufs[0]] + bufs[1..];
    }
  }

  // ---- What buffers claim is there ----

  /** Local counts of nodes that died with their process no longer back anything; temporary counts always do. */
  predicate Exempt(s: State, dying: set<Pid>, c: Cell) {
    match c
    case NodeStrong(n) => if n in s.nodes then s.nodes[n].dead else n.owner in dying
    case NodeWeak(n) => if n in s.nodes then s.nodes[n].dead else n.owner in dying
    case NodeTmp(_) => false
    case _ => true
  }

  /** Counts cover what buffers claim and what is owed, together. */
  ghost predicate Backed(s: State, bufs: seq<Buf>, dying: set<Pid>) {
    forall c :: !Exempt(s, dying, c) ==> Count(s, c) >= Total(bufs, c) + Pend(s, c)
  }

  ghost predicate BufOk(b: Buf, dying: set<Pid>) {
    && (b.phase in {Building, Failing} ==> b.from !in dying)
    && (b.phase == Freeing ==> b.target.owner !in dying)
    && (b.phase in {Building, Accepted} ==> b.strong)
    && (b.phase == Building ==> b.tmp)
    && (b.phase == Failing && b.strong ==> b.tmp)
  }

  ghost predicate BufsOk(bufs: seq<Buf>, dying: set<Pid>) {
    forall b :: b in bufs ==> BufOk(b, dying)
  }

  ghost predicate Owners(s: State, dying: set<Pid>) {
    && (forall n :: n in s.nodes && s.nodes[n].dead ==> n.owner in dying)
    && (s.ctx.Some? ==> s.ctx.value.owner !in dying)
  }

  /** Where nodes of the later state come from. */
  ghost predicate NodesFrom(s: State, s': State, dying: set<Pid>) {
    forall n :: n in s'.nodes ==> if n in s.nodes then s'.nodes[n].dead == s.nodes[n].dead else !s'.nodes[n].dead && n.owner !in dying
  }

  lemma ExemptStays(s: State, s': State, dying: set<Pid>, c: Cell)
    requires Owners(s, dying) && NodesFrom(s, s', dying) && Exempt(s, dying, c)
    ensures Exempt(s', dying, c)
  {
  }

  lemma BackedKept(s: State, s': State, bufs: seq<Buf>, bufs': seq<Buf>, dying: set<Pid>)
    requires Backed(s, bufs, dying) && Owners(s, dying) && NodesFrom(s, s', dying)
    requires forall c :: !Exempt(s', dying, c) ==> Count(s', c) - Total(bufs', c) - Pend(s', c) >= Count(s, c) - Total(bufs, c) - Pend(s, c)
    ensures Backed(s', bufs', dying)
  {
    hide Exempt, Count, Pend, Total, NodesFrom, Owners;
    forall c | !Exempt(s', dying, c) ensures Count(s', c) >= Total(bufs', c) + Pend(s', c) {
      if Exempt(s, dying, c) { ExemptStays(s, s', dying, c); }
    }
  }

  lemma OwnersKept(s: State, s': State, dying: set<Pid>)
    requires Owners(s, dying) && NodesFrom(s, s', dying) && s'.ctx == s.ctx
    ensures Owners(s', dying)
  {
  }

  /** A step on references only: no node count changes, no node appears or dies, nothing more is owed. */
  lemma RefStep(s: State, s': State, bufs: seq<Buf>, dying: set<Pid>)
    requires Backed(s, bufs, dying) && Owners(s, dying) && s'.ctx == s.ctx
    requires forall n :: n in s'.nodes ==> n in s.nodes && s'.nodes[n].dead == s.nodes[n].dead
    requires forall c :: Pend(s', c) <= Pend(s, c)
    requires forall c: Cell :: c.NodeStrong? || c.NodeWeak? || c.NodeTmp? ==> Count(s', c) == Count(s, c)
    ensures Backed(s', bufs, dying) && Owners(s', dying)
  {
    hide Count, Pend, Total;
    forall c | !Exempt(s', dying, c) ensures Count(s', c) - Total(bufs, c) - Pend(s', c) >= Count(s, c) - Total(bufs, c) - Pend(s, c) {
      assert Pend(s', c) <= Pend(s, c);
    }
    BackedKept(s, s', bufs, bufs, dying);
  }

  lemma ShiftedAside(s: State, s': State, cell: Cell, d: int)
    requires Shifted(s, s', cell, d) && (cell.RefStrong? || cell.RefWeak?)
    ensures forall c: Cell :: c.NodeStrong? || c.NodeWeak? || c.NodeTmp? ==> Count(s', c) == Count(s, c)
  {
  }

  lemma SameAside(s: State, s': State)
    requires SameCounts(s, s')
    ensures forall c: Cell :: c.NodeStrong? || c.NodeWeak? || c.NodeTmp? ==> Count(s', c) == Count(s, c)
  {
  }

  /** What a step does to one node count, with the buffers' claims moving along. */
  lemma CellStep(s: State, s': State, bufs: seq<Buf>, bufs': seq<Buf>, dying: set<Pid>, cell: Cell, d: int)
    requires Backed(s, bufs, dying) && Owners(s, dying) && NodesFrom(s, s', dying) && s'.ctx == s.ctx
    requires Shifted(s, s', cell, d) && forall c :: Pend(s', c) <= Pend(s, c)
    requires forall c :: Total(bufs', c) <= Total(bufs, c) + if c == cell then d else 0
    ensures Backed(s', bufs', dying) && Owners(s', dying)
  {
    hide Count, Pend, Total, Exempt, Owners, NodesFrom;
    forall c | !Exempt(s', dying, c) ensures Count(s', c) - Total(bufs', c) - Pend(s', c) >= Count(s, c) - Total(bufs, c) - Pend(s, c) {
      assert Count(s', c) == Count(s, c) + if c == cell then d else 0;
      assert Pend(s', c) <= Pend(s, c);
    }
    BackedKept(s, s', bufs, bufs', dying);
    OwnersKept(s, s', dying);
  }

  lemma SameIsShift(s: State, s': State, cell: Cell)
    requires SameCounts(s, s')
    ensures Shifted(s, s', cell, 0)
  {
  }

  lemma BufsUpdated(bufs: seq<Buf>, i: nat, b: Buf, dying: set<Pid>)
    requires i < |bufs| && BufsOk(bufs, dying) && BufOk(b, dying)
    ensures BufsOk(bufs[i := b], dying)
  {
    forall x | x in bufs[i := b] ensures BufOk(x, dying) { }
  }

  /** A claim of one buffer is backed on its own. */
  lemma ClaimBacked(s: State, bufs: seq<Buf>, dying: set<Pid>, i: nat, c: Cell)
    requires Backed(s, bufs, dying) && i < |bufs| && !Exempt(s, dying, c)
    ensures Count(s, c) >= Claim(bufs[i], c) + Pend(s, c)
  {
    TotalAt(bufs, i, c);
  }

  // ---- A send ----

  lemma BeginStep(s: State, bufs: seq<Buf>, dying: set<Pid>, from: Pid, n: Nid)
    requires Inv(s) && Backed(s, bufs, dying) && Owners(s, dying) && n in s.nodes && !s.nodes[n].dead
    ensures var s' := SendTo(s, n);
            && Inv(s') && Backed(s', bufs + [Buf(from, n, true, true, Building, [])], dying) && Owners(s', dying)
            && s'.nodes.Keys == s.nodes.Keys && s'.refs == s.refs && s'.ctx == s.ctx
  {
    hide Inv, SendTo, Backed, Exempt, Persist, Count, Pend, Claim, Owners;
    var s', b := SendTo(s, n), Buf(from, n, true, true, Building, []);
    SendToTakes(s, n);
    SendToFrame(s, n);
    forall c | !Exempt(s', dying, c)
      ensures Count(s', c) - Total(bufs + [b], c) - Pend(s', c) >= Count(s, c) - Total(bufs, c) - Pend(s, c)
    {
      TotalAppend(bufs, b, c);
      NewClaim(b, c);
      PendPersist(s, s', c);
    }
    BackedKept(s, s', bufs, bufs + [b], dying);
    OwnersKept(s, s', dying);
  }

  lemma NewClaim(b: Buf, c: Cell)
    requires b.outs == [] && b.strong && b.tmp
    ensures Claim(b, c) == (if c == NodeStrong(b.target) then 1 else 0) + (if c == NodeTmp(b.target) then 1 else 0)
  {
  }

  lemma PendPersist(s: State, s': State, c: Cell)
    requires Persist(s, s')
    ensures Pend(s', c) <= Pend(s, c)
  {
  }

  lemma SendToFrame(s: State, n: Nid)
    requires n in s.nodes && !s.nodes[n].dead
    ensures var s' := SendTo(s, n);
            && s'.nodes.Keys == s.nodes.Keys && s'.refs == s.refs && s'.ctx == s.ctx
            && forall m :: m in s.nodes ==> s'.nodes[m].dead == s.nodes[m].dead
    ensures forall dying :: NodesFrom(s, SendTo(s, n), dying)
  {
  }

  /** One object is translated, on the sender's behalf, into the target's buffer. */
  lemma TranslateStep(s: State, bufs: seq<Buf>, dying: set<Pid>, i: nat, o: Obj, env: Env)
    requires Inv(s) && Backed(s, bufs, dying) && Owners(s, dying) && i < |bufs| && bufs[i].from !in dying
    ensures var (s', r) := TranslateOne(s, bufs[i].from, bufs[i].target.owner, o, env);
            && Inv(s') && Owners(s', dying)
            && Backed(s', if r.Some? then bufs[i := bufs[i].(outs := bufs[i].outs + [r.value])] else bufs, dying)
  {
    hide Inv, TranslateOne, Backed, Exempt, Persist, Count, Pend, Claim, Owners, Shifted, SameCounts;
    var b := bufs[i];
    var to_ := b.target.owner;
    var cell := TranslateOneWorks(s, b.from, to_, o, env);
    var (s', r) := TranslateOne(s, b.from, to_, o, env);
    TranslateNodes(s, b.from, to_, o, env, dying);
    forall c ensures Pend(s', c) <= Pend(s, c) { PendPersist(s, s', c); }
    var bufs' := if r.Some? then bufs[i := b.(outs := b.outs + [r.value])] else bufs;
    forall c ensures Total(bufs', c) == Total(bufs, c) + if r.Some? then ObjClaim(to_, r.value, c) else 0 {
      if r.Some? { TotalUpdate(bufs, i, bufs'[i], c); OneMore(b, r.value, c); }
    }
    if r.Some? && cell.Some? {
      forall c ensures ObjClaim(to_, r.value, c) <= if c == cell.value then 1 else 0 { BoundClaim(s', to_, r.value, cell, c); }
      CellStep(s, s', bufs, bufs', dying, cell.value, 1);
    } else {
      SameIsShift(s, s', NodeTmp(b.target));
      forall c ensures r.Some? ==> ObjClaim(to_, r.value, c) == 0 { if r.Some? { BoundClaim(s', to_, r.value, cell, c); } }
      CellStep(s, s', bufs, bufs', dying, NodeTmp(b.target), 0);
    }
  }

  lemma OneMore(b: Buf, o: Obj, c: Cell)
    ensures Claim(b.(outs := b.outs + [o]), c) == Claim(b, c) + ObjClaim(b.target.owner, o, c)
  {
    OutsAppend(b.target.owner, b.outs, o, c);
  }

  lemma BoundClaim(s: State, to_: Pid, o: Obj, cell: Option<Cell>, c: Cell)
    requires Bound(s, to_, o, cell)
    ensures ObjClaim(to_, o, c) == 1 ==> cell == Some(c)
  {
  }

  lemma TranslateNodes(s: State, from: Pid, to_: Pid, o: Obj, env: Env, dying: set<Pid>)
    requires Inv(s) && from !in dying
    ensures var s' := TranslateOne(s, from, to_, o, env).0; NodesFrom(s, s', dying) && s'.ctx == s.ctx
  {
    hide Inv, TranslateBinder, TranslateHandle, NodesFrom;
    match o
    case Binder(ptr, cookie, strong) => TranslateBinderNodes(s, from, to_, ptr, cookie, strong, env, dying);
    case Handle(desc, strong) =>
      DescsOf(s);
      TranslateHandleNodes(s, from, to_, desc, strong, env, dying);
    case Other(_) =>
      SameNodes(s, dying);
  }

  lemma SameNodes(s: State, dying: set<Pid>)
    ensures NodesFrom(s, s, dying)
  {
  }

  lemma TranslateBinderNodes(s: State, from: Pid, to_: Pid, ptr: nat, cookie: nat, strong: bool, env: Env, dying: set<Pid>)
    requires from !in dying
    ensures var s' := TranslateBinder(s, from, to_, ptr, cookie, strong, env).0; NodesFrom(s, s', dying) && s'.ctx == s.ctx
  {
    hide IncTmp, PutNode, IncRefForNode, IncNode;
    var n := Nid(from, ptr);
    if n in s.nodes || env.nodeMem {
      var s1 := if n in s.nodes then IncTmp(s, n) else NewNode(s, n, cookie);
      if n in s.nodes { IncTmpNodes(s, n); }
      IncRefNodes(s1, Key(to_, n), strong, true, env.refMem);
      PutNodes(s1, n);
      PutNodes(IncRefForNode(s1, Key(to_, n), strong, true, env.refMem).0, n);
    }
  }

  lemma TranslateHandleNodes(s: State, from: Pid, to_: Pid, desc: nat, strong: bool, env: Env, dying: set<Pid>)
    requires Inv(s) && DescsApart(s)
    ensures var s' := TranslateHandle(s, from, to_, desc, strong, env).0; NodesFrom(s, s', dying) && s'.ctx == s.ctx
  {
    hide Inv, IncTmp, PutNode, IncRefForNode, IncNode, DescsApart;
    var k := FindRef(s, from, desc);
    if k != None && !(strong && s.refs[k.value].strong == 0) {
      KeyNode(s, k.value);
      var n := k.value.n;
      var s1 := IncTmp(s, n);
      IncTmpNodes(s, n);
      PutNodes(s1, n);
      IncNodeNodes(s1, n, strong);
      PutNodes(IncNode(s1, n, strong, false, false).0, n);
      IncRefNodes(s1, Key(to_, n), strong, false, env.refMem);
      PutNodes(IncRefForNode(s1, Key(to_, n), strong, false, env.refMem).0, n);
    }
  }

  /** No node appears, none dies, and the context manager stays. */
  ghost predicate Tame(s: State, s': State) {
    s'.ctx == s.ctx && forall n :: n in s'.nodes ==> n in s.nodes && s'.nodes[n].dead == s.nodes[n].dead
  }

  lemma IncTmpNodes(s: State, n: Nid)
    requires n in s.nodes
    ensures Tame(s, IncTmp(s, n)) && n in IncTmp(s, n).nodes
  {
  }

  lemma IncNodeNodes(s: State, n: Nid, strong: bool)
    requires n in s.nodes
    ensures Tame(s, IncNode(s, n, strong, false, false).0) && n in IncNode(s, n, strong, false, false).0.nodes
  {
  }

  lemma PutNodes(s: State, n: Nid)
    requires n in s.nodes
    ensures Tame(s, PutNode(s, n))
  {
    DecNodeFlags(SetNode(s, n, s.nodes[n].(tmpRefs := s.nodes[n].tmpRefs - 1)), n, false, true);
  }

  lemma IncRefNodes(s: State, k: Key, strong: bool, listed: bool, memOk: bool)
    requires k.n in s.nodes
    ensures Tame(s, IncRefForNode(s, k, strong, listed, memOk).0) && k.n in IncRefForNode(s, k, strong, listed, memOk).0.nodes
  {
    hide FirstFree, Descs;
  }

  /** The sender lets go of the target node. */
  lemma PutStep(s: State, bufs: seq<Buf>, dying: set<Pid>, i: nat)
    requires Inv(s) && Backed(s, bufs, dying) && Owners(s, dying) && i < |bufs| && bufs[i].tmp
    ensures var n := bufs[i].target;
            && n in s.nodes && Inv(PutNode(s, n)) && Owners(PutNode(s, n), dying)
            && Backed(PutNode(s, n), bufs[i := bufs[i].(tmp := false)], dying)
            && Shifted(s, PutNode(s, n), NodeTmp(n), -1)
  {
    var n, b := bufs[i].target, bufs[i];
    ClaimBacked(s, bufs, dying, i, NodeTmp(n));
    hide Inv, Backed, Exempt, Persist, Pend, Owners, PutNode, Shifted;
    PutNodeShifts(s, n);
    PutNodes(s, n);
    var s', bufs' := PutNode(s, n), bufs[i := b.(tmp := false)];
    forall c ensures Pend(s', c) <= Pend(s, c) { PendPersist(s, s', c); }
    forall c ensures Total(bufs', c) <= Total(bufs, c) + if c == NodeTmp(n) then -1 else 0 { TotalUpdate(bufs, i, bufs'[i], c); }
    CellStep(s, s', bufs, bufs', dying, NodeTmp(n), -1);
  }

  // ---- A release ----

  /** The count on the target node goes: to what it was, or, when the owner died meanwhile, below zero. */
  lemma TargetStep(s: State, bufs: seq<Buf>, dying: set<Pid>, i: nat)
    requires Inv(s) && Backed(s, bufs, dying) && Owners(s, dying) && i < |bufs| && BufOk(bufs[i], dying)
    requires bufs[i].strong && bufs[i].phase in {Failing, Freeing}
    ensures var n := bufs[i].target;
            && n in s.nodes
            && var s' := DecNode(s, n, true, false);
               && Inv(s') && Owners(s', dying) && Backed(s', bufs[i := bufs[i].(strong := false)], dying)
               && Shifted(s, s', NodeStrong(n), -1) && s'.refs == s.refs
               && (s.nodes[n].dead <==> Overdrawn(s', n))
  {
    var n, b := bufs[i].target, bufs[i];
    if b.tmp { ClaimBacked(s, bufs, dying, i, NodeTmp(n)); }
    if !Exempt(s, dying, NodeStrong(n)) { ClaimBacked(s, bufs, dying, i, NodeStrong(n)); }
    assert n in s.nodes;
    assert s.nodes[n].dead || Count(s, NodeStrong(n)) >= 1 + Pend(s, NodeStrong(n));
    NodeAt(s, n);
    hide Inv, Backed, Exempt, Persist, Pend, Owners, DecNode, Shifted;
    DecLocalShifts(s, n, true);
    DecNodeFlags(s, n, true, false);
    DecNodeCtx(s, n, true, false);
    var s', bufs' := DecNode(s, n, true, false), bufs[i := b.(strong := false)];
    DecNodeRefs(s, n, true, false);
    BelowZero(s, s', n);
    forall c ensures Pend(s', c) <= Pend(s, c) { PendPersist(s, s', c); }
    forall c ensures Total(bufs', c) <= Total(bufs, c) + if c == NodeStrong(n) then -1 else 0 { TotalUpdate(bufs, i, bufs'[i], c); }
    CellStep(s, s', bufs, bufs', dying, NodeStrong(n), -1);
  }

  lemma DecRefLinks(s: State, k: Key, strong: bool)
    requires k in s.refs && k.n in s.nodes
    ensures forall l :: l in s.refs && l != k ==> l in DecRef(s, k, strong).refs
    ensures Count(s, RefCell(k, strong)) == 0 ==> DecRef(s, k, strong) == s
    ensures LinksStay(s, DecRef(s, k, strong), Some(RefCell(k, strong)))
  {
    hide DecNode, Holders, Links;
    var r := s.refs[k];
    if Count(s, RefCell(k, strong)) != 0 {
      var s1 := SetRef(s, k, if strong then r.(strong := r.strong - 1) else r.(weak := r.weak - 1));
      LinkedStays(s1, k);
      DecNodeRefs(s1, k.n, true, true);
      var s2 := if strong && s1.refs[k].strong == 0 then DecNode(s1, k.n, true, true) else s1;
      DecNodeRefs(s2.(refs := s2.refs - {k}), k.n, false, true);
    }
  }

  lemma ReleaseLinks(s: State, to_: Pid, o: Obj)
    requires Wf(s) && DescsApart(s)
    ensures LinksStay(s, ReleaseOne(s, to_, o), ReleasedCell(s, to_, o))
  {
    hide DecNode, DecRef, Wf;
    match o
    case Binder(ptr, _, strong) =>
      var n := Nid(to_, ptr);
      if n in s.nodes && !s.nodes[n].dead {
        var s1 := DecNode(IncTmp(s, n), n, strong, false);
        DecNodeRefs(IncTmp(s, n), n, strong, false);
        if n in s1.nodes { DecNodeRefs(SetNode(s1, n, s1.nodes[n].(tmpRefs := s1.nodes[n].tmpRefs - 1)), n, false, true); }
      }
    case Handle(desc, strong) =>
      var k := FindRef(s, to_, desc);
      if k.Some? {
        assert k.value.n in s.nodes by { LinkedNode(s, k.value); }
        DecRefLinks(s, k.value, strong);
      }
    case Other(_) =>
  }

  lemma LinkedNode(s: State, k: Key)
    requires Wf(s) && k in s.refs
    ensures k.n in s.nodes
  {
  }

  lemma DecNodeRefs(s: State, n: Nid, strong: bool, internal: bool)
    requires n in s.nodes
    ensures DecNode(s, n, strong, internal).refs == s.refs
  {
  }

  lemma BelowZero(s: State, s': State, n: Nid)
    requires n in s.nodes && (s.nodes[n].dead ==> s.nodes[n].localStrong <= 0) && Shifted(s, s', NodeStrong(n), -1) && FlagsKept(s, s')
    ensures s.nodes[n].dead <==> Overdrawn(s', n)
  {
    assert Count(s', NodeStrong(n)) == Count(s, NodeStrong(n)) - 1;
  }

  /** A node whose count fell below zero never goes. */
  lemma OverdrawnForever(s: State, s': State, lost: Option<Cell>, n: Nid)
    requires VanishedIdle(s, s', lost) && Overdrawn(s, n)
    ensures n in s'.nodes
  {
    assert CountOf(NodeStrong(n), n) && Count(s, NodeStrong(n)) < 0;
  }

  /** What releasing one object takes away, if anything. */
  ghost function ReleasedCell(s: State, to_: Pid, o: Obj): Option<Cell>
    requires DescsApart(s)
  {
    match o
    case Binder(ptr, _, strong) =>
      if Nid(to_, ptr) in s.nodes && !s.nodes[Nid(to_, ptr)].dead then Some(NodeCell(Nid(to_, ptr), strong)) else None
    case Handle(desc, strong) =>
      var k := FindRef(s, to_, desc);
      if k.Some? && Count(s, RefCell(k.value, strong)) > 0 then Some(RefCell(k.value, strong)) else None
    case Other(_) => None
  }

  lemma ReleaseStep(s: State, bufs: seq<Buf>, dying: set<Pid>, i: nat)
    requires Inv(s) && Wf(s) && Backed(s, bufs, dying) && Owners(s, dying) && i < |bufs| && bufs[i].outs != []
    ensures var b := bufs[i]; var s' := ReleaseOne(s, b.target.owner, b.outs[0]); var cell := ReleasedCell(s, b.target.owner, b.outs[0]);
            && Inv(s') && Owners(s', dying) && Backed(s', bufs[i := b.(outs := b.outs[1..])], dying)
            && if cell.Some? then Shifted(s, s', cell.value, -1) else s' == s
  {
    var b := bufs[i];
    var to_, o := b.target.owner, b.outs[0];
    var s', bufs' := ReleaseOne(s, to_, o), bufs[i := b.(outs := b.outs[1..])];
    forall c ensures Total(bufs', c) == Total(bufs, c) - ObjClaim(to_, o, c) { TotalUpdate(bufs, i, bufs'[i], c); OneLess(b, c); }
    var cell := ReleasedCell(s, to_, o);
    match o {
      case Binder(ptr, _, strong) =>
        if cell.Some? {
          ClaimBacked(s, bufs, dying, i, cell.value);
          OneLess(b, cell.value);
        }
      case _ =>
    }
    ReleaseShifts(s, to_, o);
    hide Inv, Wf, Backed, Exempt, Persist, Pend, Owners, ReleaseOne, ReleasedCell, Shifted, Total, Count;
    if cell.Some? {
      forall c ensures Pend(s', c) <= Pend(s, c) { PendPersist(s, s', c); }
      if cell.value.RefStrong? || cell.value.RefWeak? {
        ShiftedAside(s, s', cell.value, -1);
        RefStep(s, s', bufs, dying);
        FewerClaims(s', bufs, bufs', dying);
      } else {
        assert forall c :: ObjClaim(to_, o, c) == if cell == Some(c) then 1 else 0 by { ReleasedIsClaimed(s, to_, o); }
        CellStep(s, s', bufs, bufs', dying, cell.value, -1);
      }
    } else {
      FewerClaims(s, bufs, bufs', dying);
    }
  }

  lemma OneLess(b: Buf, c: Cell)
    requires b.outs != []
    ensures Claim(b.(outs := b.outs[1..]), c) == Claim(b, c) - ObjClaim(b.target.owner, b.outs[0], c)
  {
  }

  lemma ReleasedIsClaimed(s: State, to_: Pid, o: Obj)
    requires DescsApart(s) && ReleasedCell(s, to_, o).Some?
    requires !ReleasedCell(s, to_, o).value.RefStrong? && !ReleasedCell(s, to_, o).value.RefWeak?
    ensures forall c :: ObjClaim(to_, o, c) == if ReleasedCell(s, to_, o) == Some(c) then 1 else 0
  {
  }

  lemma FewerClaims(s: State, bufs: seq<Buf>, bufs': seq<Buf>, dying: set<Pid>)
    requires Backed(s, bufs, dying) && forall c :: Total(bufs', c) <= Total(bufs, c)
    ensures Backed(s, bufs', dying)
  {
    hide Exempt, Count, Pend, Total;
  }

  lemma ReleaseShifts(s: State, to_: Pid, o: Obj)
    requires Inv(s) && Wf(s)
    requires o.Binder? && ReleasedCell(s, to_, o).Some? ==>
               Count(s, NodeCell(Nid(to_, o.ptr), o.strong)) >= 1 + Pend(s, NodeCell(Nid(to_, o.ptr), o.strong))
    ensures var s', cell := ReleaseOne(s, to_, o), ReleasedCell(s, to_, o);
            && Inv(s') && Persist(s, s') && Tame(s, s')
            && if cell.Some? then Shifted(s, s', cell.value, -1) else s' == s
  {
    hide Inv, Persist, Shifted, DecNode, IncTmp, PutNode, DecRef, DescsApart;
    PersistRefl(s);
    match o
    case Binder(ptr, _, strong) =>
      var n := Nid(to_, ptr);
      if n in s.nodes && !s.nodes[n].dead {
        ReleaseBinder(s, n, strong);
        IncTmpNodes(s, n);
        DecNodeFlags(IncTmp(s, n), n, strong, false);
        var s1 := DecNode(IncTmp(s, n), n, strong, false);
        if n in s1.nodes { PutNodes(s1, n); }
      }
    case Handle(desc, strong) =>
      var k := FindRef(s, to_, desc);
      if k.Some? {
        KeyNode(s, k.value);
        DecRefFlags(s, k.value, strong);
        if Count(s, RefCell(k.value, strong)) > 0 { DecRefPersist(s, k.value, strong); } else { DecRefShifts(s, k.value, strong); }
      }
    case Other(_) =>
  }

  // ---- Death ----

  /** What a node looks like once its process is gone. */
  function Deceased(nd: Node): Node {
    nd.(dead := true, localStrong := 0, localWeak := 0, queued := false)
  }

  lemma DeceasedInv(s: State, n: Nid)
    requires Inv(s) && n in s.nodes && s.ctx != Some(n)
    ensures Inv(SetNode(s, n, Deceased(s.nodes[n])))
  {
    hide DescsApart;
    var s' := SetNode(s, n, Deceased(s.nodes[n]));
    forall m | m in s'.nodes ensures NodeOk(s', m) {
      NodeAt(s, m);
      assert Holders(s', m) == Holders(s, m);
    }
    SameDescs(s, s');
  }

  lemma DropInv(s: State, n: Nid)
    requires Inv(s) && n in s.nodes && s.ctx != Some(n) && Links(s, n) == {}
    ensures Inv(s.(nodes := s.nodes - {n}))
  {
    hide DescsApart;
    var s' := s.(nodes := s.nodes - {n});
    forall m | m in s'.nodes ensures NodeOk(s', m) {
      NodeAt(s, m);
      assert Holders(s', m) == Holders(s, m);
    }
    forall k | k in s'.refs ensures k.n in s'.nodes { assert k.n == n ==> k in Links(s, n); }
    SameDescs(s, s');
  }

  /** binder_cleanup_ref_olocked on a reference with counts: the first decrement leaves the node alone. */
  lemma CleanupInv(s: State, k: Key)
    requires Inv(s) && k in s.refs && k.n in s.nodes
    ensures s.refs[k].strong > 0 ==> k.n in DecNode(s, k.n, true, true).nodes
    ensures Inv(Cleanup(s, k)) && Cleanup(s, k).refs == s.refs - {k} && Cleanup(s, k).ctx == s.ctx
    ensures Cleanup(s, k).nodes.Keys <= s.nodes.Keys
  {
    hide Inv, DecNode;
    LinkedStays(s, k);
    var s1 := if s.refs[k].strong > 0 then DecNode(s, k.n, true, true) else s;
    CleanupMiddle(s, k);
    DecNodeKeeps(Unlinked(s1, k), k.n, false, true);
    DecNodeCtx(Unlinked(s1, k), k.n, false, true);
  }

  /** With the reference still linked, the first decrement only lowers the count and perhaps queues work. */
  lemma FirstDec(s: State, k: Key) returns (queued: bool)
    requires k in s.refs && k.n in s.nodes
    ensures DecNode(s, k.n, true, true)
            == SetNode(s, k.n, s.nodes[k.n].(internalStrong := s.nodes[k.n].internalStrong - 1, queued := queued))
  {
    assert k in Links(s, k.n);
    queued := DecNode(s, k.n, true, true).nodes[k.n].queued;
  }

  lemma UnlinkedHolders(s: State, k: Key, m: Nid)
    requires k in s.refs
    ensures |Holders(Unlinked(s, k), m)| == |Holders(s, m)| - (if m == k.n && s.refs[k].strong > 0 then 1 else 0)
  {
    if m == k.n && s.refs[k].strong > 0 {
      assert Holders(Unlinked(s, k), m) == Holders(s, m) - {k};
      assert k in Holders(s, m);
    } else {
      assert Holders(Unlinked(s, k), m) == Holders(s, m);
    }
  }

  lemma SameHolders(s: State, s': State, m: Nid)
    requires s'.refs == s.refs
    ensures Holders(s', m) == Holders(s, m)
  {
  }

  lemma CleanupNode(s: State, k: Key, nd: Node, m: Nid)
    requires Inv(s) && k in s.refs && k.n in s.nodes && m in s.nodes
    requires nd.internalStrong == s.nodes[k.n].internalStrong - (if s.refs[k].strong > 0 then 1 else 0)
    requires nd == s.nodes[k.n].(internalStrong := nd.internalStrong, queued := nd.queued)
    ensures NodeOk(SetNode(Unlinked(s, k), k.n, nd), m)
  {
    hide Inv, Holders;
    NodeAt(s, m);
    UnlinkedHolders(s, k, m);
    SameHolders(Unlinked(s, k), SetNode(Unlinked(s, k), k.n, nd), m);
  }

  lemma CleanupMiddle(s: State, k: Key)
    requires Inv(s) && k in s.refs && k.n in s.nodes
    ensures var s1 := if s.refs[k].strong > 0 then DecNode(s, k.n, true, true) else s;
            && k.n in s1.nodes && s1.refs == s.refs && s1.nodes.Keys == s.nodes.Keys && s1.ctx == s.ctx
            && Inv(SetNode(Unlinked(s1, k), k.n, Decremented(s1.nodes[k.n], false, true)))
  {
    hide DescsApart, DecNode, NodeOk;
    var queued := FirstDec(s, k);
    var s1 := if s.refs[k].strong > 0 then DecNode(s, k.n, true, true) else s;
    var nd := s1.nodes[k.n];
    var s' := SetNode(Unlinked(s1, k), k.n, nd);
    assert s' == SetNode(Unlinked(s, k), k.n, nd);
    forall m | m in s'.nodes ensures NodeOk(s', m) { CleanupNode(s, k, nd, m); }
    FewerDescs(s, s', k);
  }

  /** Unlinking a reference frees its node exactly if that was the last link, nothing else counts, and the owner is
      either dead or was never told of a reference. */
  predicate Doomed(s: State, k: Key)
    requires k.n in s.nodes
  {
    var nd := s.nodes[k.n];
    && Links(s, k.n) == {k} && nd.localStrong == 0 && nd.localWeak == 0 && nd.tmpRefs == 0
    && (nd.dead || (!nd.hasStrong && !nd.hasWeak))
  }

  /** What the cleanup of a reference leaves of its node. */
  predicate Kept(nd: Node, nd': Node) {
    nd' == nd.(internalStrong := nd'.internalStrong, queued := nd'.queued)
  }

  lemma CleanupExact(s: State, k: Key)
    requires Inv(s) && k in s.refs && k.n in s.nodes && (s.refs[k].strong > 0 ==> k.n in DecNode(s, k.n, true, true).nodes)
    ensures var s' := Cleanup(s, k);
            && s'.refs == s.refs - {k} && s'.ctx == s.ctx
            && (k.n !in s'.nodes <==> Doomed(s, k))
            && (k.n in s'.nodes ==> Kept(s.nodes[k.n], s'.nodes[k.n]))
            && (forall n :: n != k.n ==> (n in s'.nodes <==> n in s.nodes) && (n in s.nodes ==> s'.nodes[n] == s.nodes[n]))
  {
    hide Inv, DecNode, Holders, AllZero;
    var queued := FirstDec(s, k);
    var s1 := if s.refs[k].strong > 0 then DecNode(s, k.n, true, true) else s;
    CleanupMiddle(s, k);
    LastDec(Unlinked(s1, k), k.n);
    assert Links(s1, k.n) == Links(s, k.n);
    assert Links(Unlinked(s1, k), k.n) == Links(s, k.n) - {k};
    assert k in Links(s, k.n);
  }

  lemma LastDec(s: State, n: Nid)
    requires n in s.nodes
    ensures var s', nd := DecNode(s, n, false, true), s.nodes[n];
            && s'.refs == s.refs && s'.ctx == s.ctx
            && (n !in s'.nodes <==> Links(s, n) == {} && nd.localStrong == 0 && nd.localWeak == 0 && nd.tmpRefs == 0
                                    && (nd.dead || (!nd.hasStrong && !nd.hasWeak)))
            && (n in s'.nodes ==> Kept(nd, s'.nodes[n]))
            && (forall m :: m != n ==> (m in s'.nodes <==> m in s.nodes) && (m in s.nodes ==> s'.nodes[m] == s.nodes[m]))
  {
  }

  /** One reference of a dead process goes. */
  lemma CleanupStep(s: State, bufs: seq<Buf>, dying: set<Pid>, k: Key)
    requires Inv(s) && k in s.refs && k.n in s.nodes && Backed(s, bufs, dying) && Owners(s, dying)
    requires s.refs[k].strong > 0 ==> k.n in DecNode(s, k.n, true, true).nodes
    ensures Backed(Cleanup(s, k), bufs, dying) && Owners(Cleanup(s, k), dying)
  {
    hide Inv, Backed, Owners, Cleanup, DecNode;
    CleanupExact(s, k);
    var s' := Cleanup(s, k);
    forall c: Cell | c.NodeStrong? || c.NodeWeak? || c.NodeTmp? ensures Count(s', c) == Count(s, c) { }
    RefStep(s, s', bufs, dying);
  }

  /** A process starts to go: it stops being the context manager's. */
  lemma DyingStep(s: State, bufs: seq<Buf>, dying: set<Pid>, p: Pid)
    requires Inv(s) && Backed(s, bufs, dying) && Owners(s, dying)
    ensures var s' := if s.ctx.Some? && s.ctx.value.owner == p then s.(ctx := None) else s;
            Inv(s') && Backed(s', bufs, dying + {p}) && Owners(s', dying + {p}) && SameCounts(s, s')
  {
    var s' := if s.ctx.Some? && s.ctx.value.owner == p then s.(ctx := None) else s;
    assert Inv(s') by {
      hide DescsApart;
      forall n | n in s'.nodes ensures NodeOk(s', n) { NodeAt(s, n); assert Holders(s', n) == Holders(s, n); }
      SameDescs(s, s');
    }
    hide Inv, Total, NodeOk;
    forall c | !Exempt(s', dying + {p}, c) ensures Count(s', c) >= Total(bufs, c) + Pend(s', c) {
      assert !Exempt(s, dying, c);
    }
  }

  /** binder_node_release: the node dies, or goes if nothing holds it. */
  function NodeReleased(s: State, n: Nid): State
    requires n in s.nodes
  {
    var s1 := IncTmp(s, n);
    if Links(s1, n) == {} && s1.nodes[n].tmpRefs == 1 then s1.(nodes := s1.nodes - {n})
    else PutNode(SetNode(s1, n, Deceased(s1.nodes[n])), n)
  }

  lemma NodeReleasedExact(s: State, n: Nid)
    requires Inv(s) && n in s.nodes && !s.nodes[n].dead && s.ctx != Some(n)
    ensures var s' := NodeReleased(s, n);
            && Inv(s') && s'.refs == s.refs && s'.ctx == s.ctx
            && (n !in s'.nodes <==> Links(s, n) == {} && s.nodes[n].tmpRefs == 0)
            && (n in s'.nodes ==> s'.nodes[n] == Deceased(s.nodes[n]))
            && (forall m :: m != n ==> (m in s'.nodes <==> m in s.nodes) && (m in s.nodes ==> s'.nodes[m] == s.nodes[m]))
  {
    hide Inv, DecNode, Holders, Persist, Shifted;
    NodeAt(s, n);
    IncTmpShifts(s, n);
    var s1 := IncTmp(s, n);
    assert Links(s1, n) == Links(s, n);
    if Links(s1, n) == {} && s1.nodes[n].tmpRefs == 1 {
      DropInv(s1, n);
    } else {
      DeceasedInv(s1, n);
      var s2 := SetNode(s1, n, Deceased(s1.nodes[n]));
      PutNodeShifts(s2, n);
      var s3 := SetNode(s2, n, s2.nodes[n].(tmpRefs := s2.nodes[n].tmpRefs - 1));
      assert s3.nodes[n] == Deceased(s.nodes[n]);
      PutDeceased(s3, n);
      assert Links(s3, n) == Links(s, n);
    }
  }

  lemma PutDeceased(s: State, n: Nid)
    requires n in s.nodes && s.nodes[n].dead && s.nodes[n].localStrong == 0 && s.nodes[n].localWeak == 0
    requires Links(s, n) != {} || s.nodes[n].tmpRefs != 0
    ensures DecNode(s, n, false, true) == s
  {
    assert SetNode(s, n, s.nodes[n]) == s;
  }

  lemma ReleasedNodeStep(s: State, bufs: seq<Buf>, dying: set<Pid>, n: Nid)
    requires Inv(s) && n in s.nodes && !s.nodes[n].dead && n.owner in dying && Backed(s, bufs, dying) && Owners(s, dying)
    ensures Backed(NodeReleased(s, n), bufs, dying) && Owners(NodeReleased(s, n), dying)
  {
    var s' := NodeReleased(s, n);
    NotTheManager(s, dying, n);
    NodeReleasedExact(s, n);
    NodeAt(s, n);
    OwnersGone(s, s', dying, n);
    hide *;
    forall c ensures !Exempt(s', dying, c) ==> Count(s', c) >= Total(bufs, c) + Pend(s', c) {
      ReleasedSlack(s, s', dying, n, c);
      BackedAt(s, bufs, dying, c);
    }
    MakeBacked(s', bufs, dying);
  }

  lemma NotTheManager(s: State, dying: set<Pid>, n: Nid)
    requires Owners(s, dying) && n.owner in dying
    ensures s.ctx != Some(n)
  {
  }

  lemma OwnersGone(s: State, s': State, dying: set<Pid>, n: Nid)
    requires Owners(s, dying) && n.owner in dying && s'.ctx == s.ctx
    requires forall m :: m != n ==> (m in s'.nodes <==> m in s.nodes) && (m in s.nodes ==> s'.nodes[m] == s.nodes[m])
    ensures Owners(s', dying)
  {
  }

  lemma ReleasedSlack(s: State, s': State, dying: set<Pid>, n: Nid, c: Cell)
    requires n in s.nodes && !s.nodes[n].dead && n.owner in dying && s'.refs == s.refs && s'.ctx == s.ctx
    requires n in s'.nodes ==> s'.nodes[n] == Deceased(s.nodes[n])
    requires n !in s'.nodes ==> s.nodes[n].tmpRefs == 0
    requires forall m :: m != n ==> (m in s'.nodes <==> m in s.nodes) && (m in s.nodes ==> s'.nodes[m] == s.nodes[m])
    ensures !Exempt(s', dying, c) ==> !Exempt(s, dying, c) && Count(s', c) == Count(s, c) && Pend(s', c) == Pend(s, c)
  {
  }

  lemma BackedAt(s: State, bufs: seq<Buf>, dying: set<Pid>, c: Cell)
    requires Backed(s, bufs, dying)
    ensures !Exempt(s, dying, c) ==> Count(s, c) >= Total(bufs, c) + Pend(s, c)
  {
  }

  lemma MakeBacked(s: State, bufs: seq<Buf>, dying: set<Pid>)
    requires forall c :: !Exempt(s, dying, c) ==> Count(s, c) >= Total(bufs, c) + Pend(s, c)
    ensures Backed(s, bufs, dying)
  {
  }

  /** The memory of a dead process goes, with the buffers in it. */
  lemma DropStep(s: State, bufs: seq<Buf>, dying: set<Pid>, p: Pid)
    requires Backed(s, bufs, dying) && BufsOk(bufs, dying)
    ensures Backed(s, Remaining(bufs, p), dying) && BufsOk(Remaining(bufs, p), dying)
  {
    forall c ensures Total(Remaining(bufs, p), c) <= Total(bufs, c) { RemainingFewer(bufs, p, c); }
    RemainingFewer(bufs, p, NodeTmp(Nid(p, 0)));
    FewerClaims(s, bufs, Remaining(bufs, p), dying);
  }

  // ---- Nodes of living processes ----

  /** A step on one node that counts and owes alike. */
  lemma OwnStep(s: State, s': State, bufs: seq<Buf>, dying: set<Pid>, n: Nid)
    requires Backed(s, bufs, dying) && Owners(s, dying) && NodesFrom(s, s', dying) && n.owner !in dying
    requires s'.ctx == s.ctx || s'.ctx == Some(n)
    requires forall c: Cell {:trigger Count(s', c)} {:trigger Pend(s', c)} :: c in {NodeStrong(n), NodeWeak(n), NodeTmp(n)} ==>
               Count(s', c) - Pend(s', c) >= Count(s, c) - Pend(s, c)
    requires forall c: Cell {:trigger Count(s', c)} {:trigger Pend(s', c)} ::
               (c.NodeStrong? || c.NodeWeak? || c.NodeTmp?) && !CountOf(c, n) ==> Count(s', c) == Count(s, c) && Pend(s', c) <= Pend(s, c)
    ensures Backed(s', bufs, dying) && Owners(s', dying)
  {
    hide Total, Count, Pend, NodesFrom;
    forall c | !Exempt(s', dying, c) ensures Count(s', c) - Total(bufs, c) - Pend(s', c) >= Count(s, c) - Total(bufs, c) - Pend(s, c) {
      if CountOf(c, n) { assert c in {NodeStrong(n), NodeWeak(n), NodeTmp(n)}; } else { assert Pend(s', c) <= Pend(s, c); }
    }
    BackedKept(s, s', bufs, bufs, dying);
    OwnersNow(s, s', dying, n);
  }

  lemma OwnersNow(s: State, s': State, dying: set<Pid>, n: Nid)
    requires Owners(s, dying) && NodesFrom(s, s', dying) && (s'.ctx == s.ctx || (s'.ctx == Some(n) && n.owner !in dying))
    ensures Owners(s', dying)
  {
  }
}
