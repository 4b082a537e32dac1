/** Objects inside a transaction: references are taken when they are translated for the target
    process and given back when the buffer is released. */
module ObjectRefs {
  import opened Words
  import opened NodeRefs

  /** A flattened object. Other stands for descriptors and buffers, which hold no node or reference counts;
      `ok` says whether the driver accepts it. */
  datatype Obj = Binder(ptr: nat, cookie: nat, strong: bool) | Handle(desc: nat, strong: bool) | Other(ok: bool)

  /** What the rest of the kernel answers while one object is translated. */
  datatype Env = Env(allowed: bool, nodeMem: bool, refMem: bool)

  function FindRef(s: State, p: Pid, desc: nat): (r: Option<Key>)
    requires DescsApart(s)
    ensures r.Some? ==> r.value in s.refs && r.value.p == p && s.refs[r.value].desc == desc
    ensures r == None ==> forall k :: k in s.refs && k.p == p ==> s.refs[k].desc != desc
  {
    if exists k :: k in s.refs && k.p == p && s.refs[k].desc == desc then
      var k :| k in s.refs && k.p == p && s.refs[k].desc == desc;
      Some(k)
    else None
  }

  lemma FoundIs(s: State, k: Key)
    requires DescsApart(s) && k in s.refs
    ensures FindRef(s, k.p, s.refs[k].desc) == Some(k)
  {
  }

  function NodeCell(n: Nid, strong: bool): Cell {
    if strong then NodeStrong(n) else NodeWeak(n)
  }

  /** The count that an object in the target's buffer stands for. */
  ghost predicate Bound(s: State, to_: Pid, o: Obj, cell: Option<Cell>) {
    match o
    case Handle(d, strong) =>
      exists k :: k in s.refs && k.p == to_ && s.refs[k].desc == d && cell == Some(RefCell(k, strong))
    case Binder(ptr, _, strong) =>
      var n := Nid(to_, ptr);
      n in s.nodes && !s.nodes[n].dead && cell == Some(NodeCell(n, strong))
    case Other(_) => cell == None
  }

  /** Counted things stay identifiable, and no process is owed more acknowledgements than before. */
  ghost predicate Persist(s: State, s': State) {
    && (forall l :: l in s.refs && ((Count(s, RefStrong(l)) > 0 && Count(s', RefStrong(l)) > 0) || (Count(s, RefWeak(l)) > 0 && Count(s', RefWeak(l)) > 0)) ==>
          l in s'.refs && s'.refs[l].desc == s.refs[l].desc)
    && (forall n :: n in s.nodes && ((Count(s, NodeStrong(n)) > 0 && Count(s', NodeStrong(n)) > 0) || (Count(s, NodeWeak(n)) > 0 && Count(s', NodeWeak(n)) > 0)) ==>
          n in s'.nodes && s'.nodes[n].dead == s.nodes[n].dead)
    && (forall c :: Pend(s', c) <= Pend(s, c))
    && (forall n :: n in s'.nodes && s'.nodes[n].dead ==> n in s.nodes && s.nodes[n].dead)
    && (forall n :: Overdrawn(s, n) ==> Overdrawn(s', n))
  }

  /** A dead node whose local strong count fell below zero, because a transaction that was on its way when the owner died
      gave its count back afterwards. */
  predicate Overdrawn(s: State, n: Nid) {
    n in s.nodes && s.nodes[n].dead && s.nodes[n].localStrong < 0
  }

  lemma OverdrawnKept(s: State, s': State)
    requires forall n :: Count(s', NodeStrong(n)) == Count(s, NodeStrong(n))
    requires forall n :: n in s.nodes && n in s'.nodes ==> s'.nodes[n].dead == s.nodes[n].dead
    ensures forall n :: Overdrawn(s, n) ==> Overdrawn(s', n)
  {
    forall n | Overdrawn(s, n) ensures Overdrawn(s', n) { assert Count(s', NodeStrong(n)) == Count(s, NodeStrong(n)); }
  }

  /** Owed counts, cell by cell. */
  function Pend(s: State, c: Cell): nat {
    match c
    case NodeStrong(n) => if n in s.nodes then Owed(s.ctx, n, s.nodes[n], true) else 0
    case NodeWeak(n) => if n in s.nodes then Owed(s.ctx, n, s.nodes[n], false) else 0
    case _ => 0
  }

  lemma PersistTrans(s: State, s1: State, s2: State)
    requires Persist(s, s1) && Persist(s1, s2)
    requires forall c :: Count(s, c) > 0 && Count(s2, c) > 0 ==> Count(s1, c) > 0
    ensures Persist(s, s2)
  {
    forall c ensures Pend(s2, c) <= Pend(s, c) {
      assert Pend(s2, c) <= Pend(s1, c) <= Pend(s, c);
    }
  }

  lemma BoundKept(s: State, s': State, to_: Pid, o: Obj, cell: Option<Cell>)
    requires Bound(s, to_, o, cell) && Persist(s, s')
    requires cell.Some? ==> Count(s, cell.value) > 0 && Count(s', cell.value) > 0
    ensures Bound(s', to_, o, cell)
  {
    if o.Handle? {
      var k :| k in s.refs && k.p == to_ && s.refs[k].desc == o.desc && cell == Some(RefCell(k, o.strong));
      assert k in s'.refs && s'.refs[k].desc == o.desc;
    }
  }

  // ---- Single steps ----

  lemma SetNodeKeeps(s: State, n: Nid, nd: Node)
    requires Inv(s) && n in s.nodes
    requires nd.internalStrong == s.nodes[n].internalStrong && nd.dead == s.nodes[n].dead
    requires if nd.dead then nd.localStrong <= 0 else nd.localStrong >= Owed(s.ctx, n, nd, true)
    requires nd.localWeak >= Owed(s.ctx, n, nd, false) && nd.tmpRefs >= 0
    ensures Inv(SetNode(s, n, nd))
  {
    hide DescsApart;
    var s' := SetNode(s, n, nd);
    forall m | m in s'.nodes ensures NodeOk(s', m) {
      NodeAt(s, m);
      assert Holders(s', m) == Holders(s, m);
    }
    SameDescs(s, s');
  }

  lemma SetNodePersist(s: State, n: Nid, nd: Node)
    requires n in s.nodes && nd.dead == s.nodes[n].dead
    requires nd.pendingStrong == s.nodes[n].pendingStrong && nd.pendingWeak == s.nodes[n].pendingWeak
    requires nd.dead ==> nd.localStrong <= s.nodes[n].localStrong
    ensures Persist(s, SetNode(s, n, nd))
  {
  }

  lemma TmpCounts(s: State, n: Nid, d: int)
    requires n in s.nodes
    ensures Shifted(s, SetNode(s, n, s.nodes[n].(tmpRefs := s.nodes[n].tmpRefs + d)), NodeTmp(n), d)
  {
  }

  lemma IncTmpShifts(s: State, n: Nid)
    requires Inv(s) && n in s.nodes
    ensures Inv(IncTmp(s, n)) && Shifted(s, IncTmp(s, n), NodeTmp(n), 1) && Persist(s, IncTmp(s, n))
    ensures Count(IncTmp(s, n), NodeTmp(n)) >= 1
  {
    hide Inv, NodeOk, Persist, Shifted;
    NodeAt(s, n);
    NodeNonNegative(s, n);
    var nd := s.nodes[n].(tmpRefs := s.nodes[n].tmpRefs + 1);
    SetNodeKeeps(s, n, nd);
    SetNodePersist(s, n, nd);
    TmpCounts(s, n, 1);
  }

  lemma NodeNonNegative(s: State, n: Nid)
    requires n in s.nodes && NodeOk(s, n)
    ensures if s.nodes[n].dead then s.nodes[n].localStrong <= 0 else s.nodes[n].localStrong >= Owed(s.ctx, n, s.nodes[n], true)
    ensures s.nodes[n].localWeak >= Owed(s.ctx, n, s.nodes[n], false)
    ensures s.nodes[n].tmpRefs >= 0
  {
  }

  /** A decrement step: counts of the node after the subtraction, queueing or free included. */
  lemma DecStep(s: State, n: Nid, strong: bool, internal: bool, s1: State)
    requires n in s.nodes && s1 == SetNode(s, n, Decremented(s.nodes[n], strong, internal)) && Inv(s1)
    ensures Inv(DecNode(s, n, strong, internal)) && SameCounts(s1, DecNode(s, n, strong, internal)) && Persist(s1, DecNode(s, n, strong, internal))
  {
    hide Inv, SameCounts, DecNode;
    DecNodeKeeps(s, n, strong, internal);
    DecNodePend(s, n, strong, internal);
    CountsAreSame(s1, DecNode(s, n, strong, internal));
    OverdrawnKept(s1, DecNode(s, n, strong, internal));
  }

  lemma CountsAreSame(s: State, s': State)
    requires SameCounts(s, s')
    ensures forall n :: Count(s', NodeStrong(n)) == Count(s, NodeStrong(n))
  {
  }

  predicate SameFlags(nd: Node, nd': Node) {
    nd'.pendingStrong == nd.pendingStrong && nd'.pendingWeak == nd.pendingWeak && nd'.dead == nd.dead
  }

  lemma DecNodePend(s: State, n: Nid, strong: bool, internal: bool)
    requires n in s.nodes
    ensures var s' := DecNode(s, n, strong, internal);
            s'.ctx == s.ctx && (n in s'.nodes ==> SameFlags(s.nodes[n], s'.nodes[n]))
  {
  }

  lemma PutNodeShifts(s: State, n: Nid)
    requires Inv(s) && n in s.nodes && Count(s, NodeTmp(n)) >= 1
    ensures Inv(PutNode(s, n)) && Shifted(s, PutNode(s, n), NodeTmp(n), -1) && Persist(s, PutNode(s, n))
  {
    hide Inv, NodeOk, Persist, DecNode, SameCounts, Shifted;
    NodeAt(s, n);
    NodeNonNegative(s, n);
    var nd := s.nodes[n].(tmpRefs := s.nodes[n].tmpRefs - 1);
    SetNodeKeeps(s, n, nd);
    SetNodePersist(s, n, nd);
    TmpCounts(s, n, -1);
    var s1 := SetNode(s, n, nd);
    SetNodeSelf(s1, n);
    DecStep(s1, n, false, true, s1);
    CountsFollow(s, s1, DecNode(s1, n, false, true), NodeTmp(n), -1);
  }

  /** A shift followed by a step that keeps all counts. */
  lemma CountsFollow(s: State, s1: State, s2: State, cell: Cell, d: int)
    requires Shifted(s, s1, cell, d) && SameCounts(s1, s2) && Persist(s, s1) && Persist(s1, s2)
    ensures Shifted(s, s2, cell, d) && Persist(s, s2)
  {
    ShiftedSame(s, s1, s2, cell, d);
    forall c | Count(s, c) > 0 && Count(s2, c) > 0 ensures Count(s1, c) > 0 { assert Count(s2, c) == Count(s1, c); }
    PersistTrans(s, s1, s2);
  }

  /** A local count is taken; that the driver may refuse to queue work for a weak one changes nothing about it. */
  lemma IncLocalShifts(s: State, n: Nid, strong: bool)
    requires Inv(s) && n in s.nodes && !s.nodes[n].dead
    ensures var s' := IncNode(s, n, strong, false, false).0;
            && Inv(s') && Shifted(s, s', NodeCell(n, strong), 1) && Persist(s, s')
            && n in s'.nodes && s'.nodes[n].dead == s.nodes[n].dead && s'.nodes[n].cookie == s.nodes[n].cookie
            && s'.nodes[n].tmpRefs == s.nodes[n].tmpRefs
  {
    hide Inv, NodeOk, Persist, Shifted, Count;
    NodeAt(s, n);
    NodeNonNegative(s, n);
    var nd := IncNode(s, n, strong, false, false).0.nodes[n];
    assert IncNode(s, n, strong, false, false).0 == SetNode(s, n, nd);
    SetNodeKeeps(s, n, nd);
    SetNodePersist(s, n, nd);
    LocalCounts(s, n, strong, nd);
  }

  lemma LocalCounts(s: State, n: Nid, strong: bool, nd: Node)
    requires n in s.nodes && nd.tmpRefs == s.nodes[n].tmpRefs
    requires nd.localStrong == s.nodes[n].localStrong + (if strong then 1 else 0)
    requires nd.localWeak == s.nodes[n].localWeak + (if strong then 0 else 1)
    ensures Shifted(s, SetNode(s, n, nd), NodeCell(n, strong), 1)
  {
  }

  lemma DecLocalShifts(s: State, n: Nid, strong: bool)
    requires Inv(s) && n in s.nodes && ((strong && s.nodes[n].dead) || Count(s, NodeCell(n, strong)) >= 1 + Pend(s, NodeCell(n, strong)))
    ensures var s' := DecNode(s, n, strong, false);
            Inv(s') && Shifted(s, s', NodeCell(n, strong), -1) && Persist(s, s')
  {
    hide Inv, NodeOk, Persist, DecNode, SameCounts;
    NodeAt(s, n);
    NodeNonNegative(s, n);
    var nd := Decremented(s.nodes[n], strong, false);
    SetNodeKeeps(s, n, nd);
    SetNodePersist(s, n, nd);
    var s1 := SetNode(s, n, nd);
    DecStep(s, n, strong, false, s1);
    CountsFollow(s, s1, DecNode(s, n, strong, false), NodeCell(n, strong), -1);
  }

  lemma DecRefPersist(s: State, k: Key, strong: bool)
    requires Inv(s) && k in s.refs && k.n in s.nodes && Count(s, RefCell(k, strong)) > 0
    ensures Inv(DecRef(s, k, strong)) && Shifted(s, DecRef(s, k, strong), RefCell(k, strong), -1) && Persist(s, DecRef(s, k, strong))
  {
    hide Inv, DecRef, Shifted;
    DecRefShifts(s, k, strong);
    DecRefPend(s, k, strong);
    DecRefFlags(s, k, strong);
    ShiftedElsewhere(s, DecRef(s, k, strong), RefCell(k, strong), -1);
    OverdrawnKept(s, DecRef(s, k, strong));
  }

  lemma ShiftedElsewhere(s: State, s': State, cell: Cell, d: int)
    requires Shifted(s, s', cell, d)
    ensures forall n :: cell != NodeStrong(n) ==> Count(s', NodeStrong(n)) == Count(s, NodeStrong(n))
  {
  }

  lemma DecRefPend(s: State, k: Key, strong: bool)
    requires k in s.refs && k.n in s.nodes
    ensures forall c :: Pend(DecRef(s, k, strong), c) <= Pend(s, c)
  {
    DecRefFlags(s, k, strong);
    var s' := DecRef(s, k, strong);
    forall c ensures Pend(s', c) <= Pend(s, c) { PendFlags(s, s', c); }
  }

  /** No node appears, and none is owed an acknowledgement it was not owed before. */
  ghost predicate FlagsKept(s: State, s': State) {
    s'.ctx == s.ctx && forall n :: n in s'.nodes ==> n in s.nodes && SameFlags(s.nodes[n], s'.nodes[n])
  }

  lemma PendFlags(s: State, s': State, c: Cell)
    requires FlagsKept(s, s')
    ensures Pend(s', c) <= Pend(s, c)
  {
  }

  lemma DecNodeFlags(s: State, n: Nid, strong: bool, internal: bool)
    requires n in s.nodes
    ensures FlagsKept(s, DecNode(s, n, strong, internal))
  {
    hide AllZero, Links;
  }

  lemma DecRefFlags(s: State, k: Key, strong: bool)
    requires k in s.refs && k.n in s.nodes
    ensures FlagsKept(s, DecRef(s, k, strong))
  {
    hide DecNode;
    var r := s.refs[k];
    if (if strong then r.strong else r.weak) != 0 {
      var r1 := if strong then r.(strong := r.strong - 1) else r.(weak := r.weak - 1);
      var s1 := SetRef(s, k, r1);
      LinkedStays(s1, k);
      DecNodeFlags(s1, k.n, true, true);
      var s2 := if strong && r1.strong == 0 then DecNode(s1, k.n, true, true) else s1;
      DecNodeFlags(s2.(refs := s2.refs - {k}), k.n, false, true);
    }
  }

  /** Persist from what does not even lose uncounted things. */
  lemma PersistAll(s: State, s': State)
    requires forall l :: l in s.refs ==> l in s'.refs && s'.refs[l].desc == s.refs[l].desc
    requires s'.nodes.Keys == s.nodes.Keys && forall n :: n in s.nodes ==> s'.nodes[n].dead == s.nodes[n].dead
    requires forall c :: Pend(s', c) <= Pend(s, c)
    requires forall n :: Count(s', NodeStrong(n)) == Count(s, NodeStrong(n))
    ensures Persist(s, s')
  {
    OverdrawnKept(s, s');
    forall n | n in s'.nodes ensures n in s.nodes { assert n in s'.nodes.Keys; }
  }

  lemma IncRefPersist(s: State, k: Key, strong: bool, listed: bool, memOk: bool)
    requires Inv(s) && k.n in s.nodes
    ensures Persist(s, IncRefForNode(s, k, strong, listed, memOk).0)
  {
    hide Inv, IncRefForNode, Persist, Shifted, SameCounts, Holders;
    IncRefForNodeShifts(s, k, strong, listed, memOk);
    IncRefPend(s, k, strong, listed, memOk);
    var (s', d) := IncRefForNode(s, k, strong, listed, memOk);
    if d.Some? { ShiftedElsewhere(s, s', RefCell(k, strong), 1); } else { CountsAreSame(s, s'); }
    PersistAll(s, IncRefForNode(s, k, strong, listed, memOk).0);
  }

  lemma IncRefPend(s: State, k: Key, strong: bool, listed: bool, memOk: bool)
    requires k.n in s.nodes
    ensures forall c :: Pend(IncRefForNode(s, k, strong, listed, memOk).0, c) <= Pend(s, c)
  {
    hide FirstFree, Descs;
  }

  // ---- Translation of one object ----

  function NewNode(s: State, n: Nid, cookie: nat): State {
    s.(nodes := s.nodes[n := Node(cookie, false, 0, 0, 0, 1, false, false, false, false, false)])
  }

  /** binder_translate_binder. The sending process lives, so each of its nodes is in its tree. */
  function TranslateBinder(s: State, from: Pid, to_: Pid, ptr: nat, cookie: nat, strong: bool, env: Env): (State, Option<Obj>)
  {
    var n := Nid(from, ptr);
    if n !in s.nodes && !env.nodeMem then (s, None)
    else
      var s1 := if n in s.nodes then IncTmp(s, n) else NewNode(s, n, cookie);
      if cookie != s1.nodes[n].cookie || !env.allowed then (PutNode(s1, n), None)
      else
        var (s2, d) := IncRefForNode(s1, Key(to_, n), strong, true, env.refMem);
        assert n in s2.nodes by { IncKeepsNodes(s1, Key(to_, n), strong, true, env.refMem); }
        (PutNode(s2, n), if d.Some? then Some(Handle(d.value, strong)) else None)
  }

  lemma IncKeepsNodes(s: State, k: Key, strong: bool, listed: bool, memOk: bool)
    requires k.n in s.nodes
    ensures k.n in IncRefForNode(s, k, strong, listed, memOk).0.nodes
  {
    hide FirstFree, Descs;
  }

  /** binder_translate_handle */
  function TranslateHandle(s: State, from: Pid, to_: Pid, desc: nat, strong: bool, env: Env): (State, Option<Obj>)
    requires Inv(s)
  {
    var k := FindRef(s, from, desc);
    if k == None || (strong && s.refs[k.value].strong == 0) then (s, None)
    else
      var n := k.value.n;
      var s1 := IncTmp(s, n);
      if !env.allowed then (PutNode(s1, n), None)
      else if !s.nodes[n].dead && n.owner == to_ then
        var s2 := IncNode(s1, n, strong, false, false).0;
        (PutNode(s2, n), Some(Binder(n.ptr, s.nodes[n].cookie, strong)))
      else
        var (s2, d) := IncRefForNode(s1, Key(to_, n), strong, false, env.refMem);
        assert n in s2.nodes by { IncKeepsNodes(s1, Key(to_, n), strong, false, env.refMem); }
        (PutNode(s2, n), if d.Some? then Some(Handle(d.value, strong)) else None)
  }

  function TranslateOne(s: State, from: Pid, to_: Pid, o: Obj, env: Env): (State, Option<Obj>)
    requires Inv(s)
  {
    match o
    case Binder(ptr, cookie, strong) => TranslateBinder(s, from, to_, ptr, cookie, strong, env)
    case Handle(desc, strong) => TranslateHandle(s, from, to_, desc, strong, env)
    case Other(ok) => (s, if ok then Some(o) else None)
  }

  /** Three shifts of which the outer two cancel. */
  lemma Sandwich(s: State, s1: State, s2: State, s3: State, tmp: Cell, cell: Cell, d: int)
    requires Shifted(s, s1, tmp, 1) && Shifted(s1, s2, cell, d) && Shifted(s2, s3, tmp, -1)
    requires Persist(s, s1) && Persist(s1, s2) && Persist(s2, s3)
    ensures Shifted(s, s3, cell, d) && Persist(s, s3)
  {
    hide Persist;
    forall c: Cell ensures Count(s3, c) == Count(s, c) + if c == cell then d else 0 {
      assert Count(s1, c) == Count(s, c) + if c == tmp then 1 else 0;
      assert Count(s2, c) == Count(s1, c) + if c == cell then d else 0;
    }
    forall c: Cell | Count(s, c) > 0 ensures Count(s1, c) > 0 {
      assert Count(s1, c) == Count(s, c) + if c == tmp then 1 else 0;
    }
    PersistTrans(s, s1, s2);
    forall c: Cell | Count(s3, c) > 0 ensures Count(s2, c) > 0 {
      assert Count(s3, c) == Count(s2, c) + if c == tmp then -1 else 0;
    }
    PersistTrans(s, s2, s3);
  }

  /** The same with nothing in between. */
  lemma EmptySandwich(s: State, s1: State, s2: State, s3: State, tmp: Cell)
    requires Shifted(s, s1, tmp, 1) && SameCounts(s1, s2) && Shifted(s2, s3, tmp, -1)
    requires Persist(s, s1) && Persist(s1, s2) && Persist(s2, s3)
    ensures SameCounts(s, s3) && Persist(s, s3)
  {
    hide Persist;
    ShiftedByNothing(s1, s2, tmp);
    Sandwich(s, s1, s2, s3, tmp, tmp, 0);
    ShiftedZero(s, s3, tmp);
  }

  lemma ShiftedByNothing(s: State, s': State, cell: Cell)
    requires SameCounts(s, s')
    ensures Shifted(s, s', cell, 0)
  {
  }

  lemma ShiftedZero(s: State, s': State, cell: Cell)
    requires Shifted(s, s', cell, 0)
    ensures SameCounts(s, s')
  {
  }

  lemma PersistRefl(s: State)
    ensures Persist(s, s)
  {
  }

  /** A node made for an object nobody sent before starts with a temporary count only. */
  lemma NewNodeShifts(s: State, n: Nid, cookie: nat)
    requires Inv(s) && n !in s.nodes
    ensures Inv(NewNode(s, n, cookie)) && Shifted(s, NewNode(s, n, cookie), NodeTmp(n), 1) && Persist(s, NewNode(s, n, cookie))
  {
    hide DescsApart;
    var s' := NewNode(s, n, cookie);
    forall m | m in s'.nodes ensures NodeOk(s', m) {
      if m == n { NoHolders(s, s', n); } else { NodeAt(s, m); assert Holders(s', m) == Holders(s, m); }
    }
    SameDescs(s, s');
    NewNodePersist(s, n, cookie);
  }

  lemma NoHolders(s: State, s': State, n: Nid)
    requires Inv(s) && n !in s.nodes && s'.refs == s.refs
    ensures |Holders(s', n)| == 0
  {
    assert Holders(s', n) == {};
  }

  lemma NewNodePersist(s: State, n: Nid, cookie: nat)
    requires n !in s.nodes && s.ctx != Some(n)
    ensures Persist(s, NewNode(s, n, cookie)) && Shifted(s, NewNode(s, n, cookie), NodeTmp(n), 1)
  {
    hide Count, Pend;
    forall c ensures NewNodeCell(s, n, cookie, c) { NewNodeCounts(s, n, cookie, c); }
    var s' := NewNode(s, n, cookie);
    assert forall c {:trigger Count(s', c)} {:trigger Pend(s', c)} :: NewNodeCell(s, n, cookie, c);
  }

  ghost predicate NewNodeCell(s: State, n: Nid, cookie: nat, c: Cell) {
    && Count(NewNode(s, n, cookie), c) == Count(s, c) + (if c == NodeTmp(n) then 1 else 0)
    && Pend(NewNode(s, n, cookie), c) <= Pend(s, c)
  }

  lemma NewNodeCounts(s: State, n: Nid, cookie: nat, c: Cell)
    requires n !in s.nodes && s.ctx != Some(n)
    ensures NewNodeCell(s, n, cookie, c)
  {
  }

  /** What one translation does: on success one count more, and the translated object stands for it;
      on failure no count changes, however far it got. */
  ghost predicate Translated(s: State, to_: Pid, s': State, r: Option<Obj>, cell: Option<Cell>) {
    && Inv(s') && Persist(s, s')
    && (if r.Some? && cell.Some? then Shifted(s, s', cell.value, 1) else SameCounts(s, s'))
    && (r.Some? ==> Bound(s', to_, r.value, cell))
  }

  lemma HandleBound(s: State, k: Key, strong: bool)
    requires k in s.refs
    ensures Bound(s, k.p, Handle(s.refs[k].desc, strong), Some(RefCell(k, strong)))
  {
  }

  /** The end of a translation that made a reference for the target. */
  lemma MadeRef(s: State, s1: State, k: Key, strong: bool, listed: bool, memOk: bool) returns (cell: Option<Cell>)
    requires Inv(s1) && k.n in s1.nodes && Persist(s, s1) && Shifted(s, s1, NodeTmp(k.n), 1) && Count(s1, NodeTmp(k.n)) >= 1
    ensures var (s2, d) := IncRefForNode(s1, k, strong, listed, memOk);
            k.n in s2.nodes && Translated(s, k.p, PutNode(s2, k.n), if d.Some? then Some(Handle(d.value, strong)) else None, cell)
  {
    hide Inv, Persist, Shifted, SameCounts, IncRefForNode, PutNode;
    IncRefForNodeShifts(s1, k, strong, listed, memOk);
    IncRefPersist(s1, k, strong, listed, memOk);
    var (s2, d) := IncRefForNode(s1, k, strong, listed, memOk);
    TmpStays(s1, s2, k, strong, d.Some?);
    PutNodeShifts(s2, k.n);
    var s3 := PutNode(s2, k.n);
    if d.Some? {
      Sandwich(s, s1, s2, s3, NodeTmp(k.n), RefCell(k, strong), 1);
      cell := Some(RefCell(k, strong));
      HandleBound(s2, k, strong);
      RefPositive(s1, s2, s3, k, strong);
      BoundKept(s2, s3, k.p, Handle(d.value, strong), cell);
    } else {
      EmptySandwich(s, s1, s2, s3, NodeTmp(k.n));
      cell := None;
    }
  }

  lemma TmpStays(s1: State, s2: State, k: Key, strong: bool, ok: bool)
    requires if ok then Shifted(s1, s2, RefCell(k, strong), 1) else SameCounts(s1, s2)
    requires Count(s1, NodeTmp(k.n)) >= 1
    ensures Count(s2, NodeTmp(k.n)) >= 1
  {
    assert Count(s2, NodeTmp(k.n)) == Count(s1, NodeTmp(k.n));
  }

  lemma RefPositive(s1: State, s2: State, s3: State, k: Key, strong: bool)
    requires Shifted(s1, s2, RefCell(k, strong), 1) && Shifted(s2, s3, NodeTmp(k.n), -1)
    ensures Count(s2, RefCell(k, strong)) > 0 && Count(s3, RefCell(k, strong)) > 0
  {
    assert Count(s2, RefCell(k, strong)) == Count(s1, RefCell(k, strong)) + 1;
    assert Count(s3, RefCell(k, strong)) == Count(s2, RefCell(k, strong));
  }

  lemma GivenUp(s: State, s1: State, to_: Pid, n: Nid)
    requires Inv(s1) && n in s1.nodes && Persist(s, s1) && Shifted(s, s1, NodeTmp(n), 1) && Count(s1, NodeTmp(n)) >= 1
    ensures Translated(s, to_, PutNode(s1, n), None, None)
  {
    hide Inv, Persist, Shifted, PutNode;
    PutNodeShifts(s1, n);
    SameCountsRefl(s1);
    PersistRefl(s1);
    EmptySandwich(s, s1, s1, PutNode(s1, n), NodeTmp(n));
  }

  lemma TranslateBinderWorks(s: State, from: Pid, to_: Pid, ptr: nat, cookie: nat, strong: bool, env: Env) returns (cell: Option<Cell>)
    requires Inv(s)
    ensures var (s', r) := TranslateBinder(s, from, to_, ptr, cookie, strong, env); Translated(s, to_, s', r, cell)
  {
    hide Inv, Persist, Shifted, PutNode, Bound, IncTmp, NewNode;
    var n := Nid(from, ptr);
    cell := None;
    if n !in s.nodes && !env.nodeMem {
      PersistRefl(s);
      SameCountsRefl(s);
    } else {
      var s1 := if n in s.nodes then IncTmp(s, n) else NewNode(s, n, cookie);
      if n in s.nodes { IncTmpShifts(s, n); IncTmpNode(s, n); } else { NewNodeShifts(s, n, cookie); NewNodeHere(s, n, cookie); }
      if cookie != s1.nodes[n].cookie || !env.allowed {
        GivenUp(s, s1, to_, n);
      } else {
        cell := MadeRef(s, s1, Key(to_, n), strong, true, env.refMem);
      }
    }
  }

  lemma IncTmpNode(s: State, n: Nid)
    requires n in s.nodes
    ensures n in IncTmp(s, n).nodes && IncTmp(s, n).nodes[n].dead == s.nodes[n].dead && IncTmp(s, n).nodes[n].cookie == s.nodes[n].cookie
  {
  }

  lemma NewNodeHere(s: State, n: Nid, cookie: nat)
    ensures n in NewNode(s, n, cookie).nodes && Count(NewNode(s, n, cookie), NodeTmp(n)) == 1
  {
  }

  /** The end of a translation that took a local count on a node of the target. */
  lemma MadeLocal(s: State, s1: State, n: Nid, strong: bool, cookie: nat)
    requires Inv(s) && n in s.nodes && !s.nodes[n].dead && Inv(s1) && n in s1.nodes && !s1.nodes[n].dead
    requires Persist(s, s1) && Shifted(s, s1, NodeTmp(n), 1) && Count(s1, NodeTmp(n)) >= 1
    ensures var s2 := IncNode(s1, n, strong, false, false).0;
            n in s2.nodes && Translated(s, n.owner, PutNode(s2, n), Some(Binder(n.ptr, cookie, strong)), Some(NodeCell(n, strong)))
  {
    hide Inv, Persist, Shifted, PutNode, Bound, IncNode, SameCounts;
    var s2 := IncNode(s1, n, strong, false, false).0;
    IncLocalShifts(s1, n, strong);
    LocalTmp(s1, s2, n, strong);
    PutNodeShifts(s2, n);
    var s3 := PutNode(s2, n);
    Sandwich(s, s1, s2, s3, NodeTmp(n), NodeCell(n, strong), 1);
    NodePositive(s, s1, s2, s3, n, strong);
    BinderBound(s2, n, cookie, strong);
    BoundKept(s2, s3, n.owner, Binder(n.ptr, cookie, strong), Some(NodeCell(n, strong)));
  }

  lemma TranslateHandleWorks(s: State, from: Pid, to_: Pid, desc: nat, strong: bool, env: Env) returns (cell: Option<Cell>)
    requires Inv(s)
    ensures var (s', r) := TranslateHandle(s, from, to_, desc, strong, env); Translated(s, to_, s', r, cell)
  {
    DescsOf(s);
    hide Inv, Persist, Shifted, PutNode, Bound, IncTmp, NewNode, IncNode, Translated, IncRefForNode, DescsApart;
    var k := FindRef(s, from, desc);
    cell := None;
    NothingTranslated(s, to_);
    if k != None && !(strong && s.refs[k.value].strong == 0) {
      KeyNode(s, k.value);
      var n := k.value.n;
      var s1 := IncTmp(s, n);
      IncTmpShifts(s, n);
      IncTmpNode(s, n);
      if !env.allowed {
        GivenUp(s, s1, to_, n);
      } else if !s.nodes[n].dead && n.owner == to_ {
        MadeLocal(s, s1, n, strong, s.nodes[n].cookie);
        cell := Some(NodeCell(n, strong));
      } else {
        cell := MadeRef(s, s1, Key(to_, n), strong, false, env.refMem);
      }
    }
  }

  lemma NothingTranslated(s: State, to_: Pid)
    requires Inv(s)
    ensures Translated(s, to_, s, None, None)
  {
  }

  lemma DescsOf(s: State)
    requires Inv(s)
    ensures DescsApart(s)
  {
  }

  lemma LocalTmp(s1: State, s2: State, n: Nid, strong: bool)
    requires Shifted(s1, s2, NodeCell(n, strong), 1) && Count(s1, NodeTmp(n)) >= 1
    ensures Count(s2, NodeTmp(n)) >= 1
  {
    assert Count(s2, NodeTmp(n)) == Count(s1, NodeTmp(n));
  }

  lemma NodePositive(s: State, s1: State, s2: State, s3: State, n: Nid, strong: bool)
    requires Inv(s) && n in s.nodes && !s.nodes[n].dead && Shifted(s, s1, NodeTmp(n), 1) && Shifted(s1, s2, NodeCell(n, strong), 1) && Shifted(s2, s3, NodeTmp(n), -1)
    ensures Count(s2, NodeCell(n, strong)) > 0 && Count(s3, NodeCell(n, strong)) > 0
  {
    NodeAt(s, n);
    assert Count(s1, NodeCell(n, strong)) == Count(s, NodeCell(n, strong)) >= 0;
    assert Count(s2, NodeCell(n, strong)) == Count(s1, NodeCell(n, strong)) + 1;
    assert Count(s3, NodeCell(n, strong)) == Count(s2, NodeCell(n, strong));
  }

  lemma BinderBound(s: State, n: Nid, cookie: nat, strong: bool)
    requires n in s.nodes && !s.nodes[n].dead
    ensures Bound(s, n.owner, Binder(n.ptr, cookie, strong), Some(NodeCell(n, strong)))
  {
  }

  lemma TranslateOneWorks(s: State, from: Pid, to_: Pid, o: Obj, env: Env) returns (cell: Option<Cell>)
    requires Inv(s)
    ensures var (s', r) := TranslateOne(s, from, to_, o, env); Translated(s, to_, s', r, cell)
  {
    hide Inv, Persist, TranslateBinder, TranslateHandle, SameCounts;
    match o
    case Binder(ptr, cookie, strong) => cell := TranslateBinderWorks(s, from, to_, ptr, cookie, strong, env);
    case Handle(desc, strong) => cell := TranslateHandleWorks(s, from, to_, desc, strong, env);
    case Other(ok) => cell := None; PersistRefl(s); SameCountsRefl(s);
  }

  /** Forwarding a handle that the sender holds strongly is never refused by the node:
      it takes a security veto or a lack of memory to stop it. */
  lemma StrongForwardAccepted(s: State, from: Pid, to_: Pid, desc: nat, env: Env)
    requires Inv(s) && env.allowed && env.refMem
    requires FindRef(s, from, desc).Some? && s.refs[FindRef(s, from, desc).value].strong > 0
    ensures TranslateHandle(s, from, to_, desc, true, env).1.Some?
  {
    DescsOf(s);
    hide Inv, Persist, Shifted, PutNode, Bound, IncTmp, IncNode, Holders;
    var k := FindRef(s, from, desc).value;
    KeyNode(s, k);
    var s1 := IncTmp(s, k.n);
    IncTmpShifts(s, k.n);
    IncTmpNode(s, k.n);
    HeldStrongly(s, k);
    if s.nodes[k.n].dead || k.n.owner != to_ {
      IncRefForNodeShifts(s1, Key(to_, k.n), true, false, true);
    }
  }

  lemma HeldStrongly(s: State, k: Key)
    requires Inv(s) && k in s.refs && s.refs[k].strong > 0 && k.n in s.nodes
    ensures |Holders(IncTmp(s, k.n), k.n)| > 0
  {
    assert k in Holders(IncTmp(s, k.n), k.n);
  }

  /** What has to be there for a weak handle to be forwarded: the node is the receiver's own, or the receiver already
      holds it weakly, or the owner knows of a weak reference or is about to hear of one. */
  predicate WeakWelcome(s: State, to_: Pid, n: Nid)
    requires n in s.nodes
  {
    || (!s.nodes[n].dead && n.owner == to_)
    || (Key(to_, n) in s.refs && s.refs[Key(to_, n)].weak > 0)
    || s.nodes[n].hasWeak || s.nodes[n].queued
  }

  /** A weak handle, in contrast, is forwarded exactly under those conditions. */
  lemma WeakForwardIff(s: State, from: Pid, to_: Pid, desc: nat, env: Env)
    requires Inv(s) && env.allowed && env.refMem
    requires FindRef(s, from, desc).Some?
    ensures var n := FindRef(s, from, desc).value.n;
            n in s.nodes && (TranslateHandle(s, from, to_, desc, false, env).1.Some? <==> WeakWelcome(s, to_, n))
  {
    hide Inv, FirstFree, Descs, Holders, Links;
    DescsOf(s);
    var n := FindRef(s, from, desc).value.n;
    KeyNode(s, FindRef(s, from, desc).value);
    var s1 := IncTmp(s, n);
    var k := Key(to_, n);
    assert s1.refs == s.refs;
    WeakIncIff(s1, k);
  }

  lemma WeakIncIff(s: State, k: Key)
    requires k.n in s.nodes
    ensures IncRefForNode(s, k, false, false, true).1.Some? <==>
              (k in s.refs && s.refs[k].weak > 0) || s.nodes[k.n].hasWeak || s.nodes[k.n].queued
  {
    hide FirstFree, Descs;
  }

  /** The refusal happens to a node whose owner died before it heard of the reference. The failed attempt leaves a
      reference without counts behind. */
  lemma WeakForwardRefused()
    ensures exists s: State, k: Key :: Inv(s) && k in s.refs && s.refs[k].weak > 0
              && (var (s', r) := TranslateHandle(s, k.p, 2, s.refs[k].desc, false, Env(true, true, true));
                  r == None && Key(2, k.n) in s'.refs && s'.refs[Key(2, k.n)].strong == 0 && s'.refs[Key(2, k.n)].weak == 0)
  {
    var n, k := Nid(0, 7), Key(1, Nid(0, 7));
    var nd := Node(0, true, 0, 0, 0, 0, false, false, false, false, false);
    var s := State(map[n := nd], map[k := Ref(1, 0, 1)], None);
    assert Holders(s, n) == {};
    assert Inv(s);
    assert FindRef(s, 1, 1) == Some(k) by { FoundIs(s, k); }
    var s1 := IncTmp(s, n);
    assert k in Links(s1, n);
    var s2 := Linked(s1, Key(2, n));
    assert k in Links(s2, n);
    var (s3, d) := IncRefForNode(s1, Key(2, n), false, false, true);
    assert d == None && s3 == s2;
    assert PutNode(s2, n).refs == s2.refs;
  }

  // ---- What an object stands for ----

  /** In the hands of process p the object o stands for the node n. */
  ghost predicate Denotes(s: State, p: Pid, o: Obj, n: Nid) {
    match o
    case Binder(ptr, cookie, _) => n == Nid(p, ptr) && n in s.nodes && s.nodes[n].cookie == cookie
    case Handle(desc, _) => Key(p, n) in s.refs && s.refs[Key(p, n)].desc == desc
    case Other(_) => false
  }

  /** The receiver gets the same node as was sent, as strongly; its owner gets it as its own object, anybody else a handle. */
  ghost predicate SameThing(s: State, s': State, from: Pid, to_: Pid, o: Obj, r: Obj) {
    match o
    case Other(_) => r == o
    case Binder(ptr, _, strong) =>
      Denotes(s', from, o, Nid(from, ptr)) && r.Handle? && r.strong == strong && Denotes(s', to_, r, Nid(from, ptr))
    case Handle(_, strong) =>
      exists n :: && Denotes(s, from, o, n) && n in s.nodes && Denotes(s', to_, r, n) && !r.Other? && r.strong == strong
                  && (r.Binder? <==> !s.nodes[n].dead && n.owner == to_)
  }

  lemma PutNodeSame(s: State, n: Nid)
    requires n in s.nodes
    ensures PutNode(s, n).refs == s.refs
    ensures forall m :: m in PutNode(s, n).nodes ==> m in s.nodes && PutNode(s, n).nodes[m].cookie == s.nodes[m].cookie
  {
    hide AllZero, Links;
  }

  lemma IncRefMade(s: State, k: Key, strong: bool, listed: bool, memOk: bool)
    requires k.n in s.nodes
    ensures var (s', d) := IncRefForNode(s, k, strong, listed, memOk);
            && k.n in s'.nodes && s'.nodes[k.n].cookie == s.nodes[k.n].cookie
            && (d.Some? ==> k in s'.refs && s'.refs[k].desc == d.value)
            && (forall l :: l in s.refs ==> l in s'.refs && s'.refs[l].desc == s.refs[l].desc)
            && (listed ==> (d.Some? <==> k in s.refs || memOk))
  {
    hide FirstFree, Descs;
  }

  lemma BinderSame(s: State, from: Pid, to_: Pid, ptr: nat, cookie: nat, strong: bool, env: Env)
    requires Inv(s)
    ensures var (s', r) := TranslateBinder(s, from, to_, ptr, cookie, strong, env);
            r.Some? ==> SameThing(s, s', from, to_, Binder(ptr, cookie, strong), r.value)
    ensures var n := Nid(from, ptr);
            TranslateBinder(s, from, to_, ptr, cookie, strong, env).1.Some? <==>
              && (if n in s.nodes then s.nodes[n].cookie == cookie else env.nodeMem)
              && env.allowed && (Key(to_, n) in s.refs || env.refMem)
  {
    hide Inv, PutNode, IncRefForNode, IncTmp;
    var n := Nid(from, ptr);
    if n in s.nodes || env.nodeMem {
      var s1 := if n in s.nodes then IncTmp(s, n) else NewNode(s, n, cookie);
      if n in s.nodes { IncTmpSame(s, n); } else { NewNodeHere(s, n, cookie); NewNodeCookie(s, n, cookie); }
      var k := Key(to_, n);
      IncRefMade(s1, k, strong, true, env.refMem);
      var (s2, d) := IncRefForNode(s1, k, strong, true, env.refMem);
      PutNodeSame(s2, n);
      if cookie == s1.nodes[n].cookie && env.allowed && d.Some? {
        var cell := TranslateBinderWorks(s, from, to_, ptr, cookie, strong, env);
        KeyNode(PutNode(s2, n), k);
      }
    }
  }

  lemma IncTmpSame(s: State, n: Nid)
    requires n in s.nodes
    ensures var s' := IncTmp(s, n); n in s'.nodes && s'.refs == s.refs && s'.nodes[n].cookie == s.nodes[n].cookie && s'.nodes[n].dead == s.nodes[n].dead
  {
  }

  lemma NewNodeCookie(s: State, n: Nid, cookie: nat)
    ensures NewNode(s, n, cookie).nodes[n].cookie == cookie && NewNode(s, n, cookie).refs == s.refs
  {
  }

  lemma IncLocalSame(s: State, n: Nid, strong: bool)
    requires n in s.nodes
    ensures var s' := IncNode(s, n, strong, false, false).0; n in s'.nodes && s'.nodes[n].cookie == s.nodes[n].cookie
  {
  }

  lemma HandleSame(s: State, from: Pid, to_: Pid, desc: nat, strong: bool, env: Env)
    requires Inv(s)
    ensures var (s', r) := TranslateHandle(s, from, to_, desc, strong, env);
            r.Some? ==> SameThing(s, s', from, to_, Handle(desc, strong), r.value)
  {
    DescsOf(s);
    hide Inv, PutNode, IncRefForNode, IncTmp, IncNode, DescsApart, Bound, Persist;
    var k := FindRef(s, from, desc);
    var (s', r) := TranslateHandle(s, from, to_, desc, strong, env);
    if r.Some? {
      KeyNode(s, k.value);
      var n := k.value.n;
      assert k.value == Key(from, n);
      assert Denotes(s, from, Handle(desc, strong), n);
      var s1 := IncTmp(s, n);
      IncTmpSame(s, n);
      if !s.nodes[n].dead && n.owner == to_ {
        IncLocalSame(s1, n, strong);
        PutNodeSame(IncNode(s1, n, strong, false, false).0, n);
        var cell := TranslateHandleWorks(s, from, to_, desc, strong, env);
        LocalHere(s', to_, r.value, cell);
        assert Denotes(s', to_, r.value, n);
      } else {
        IncRefMade(s1, Key(to_, n), strong, false, env.refMem);
        PutNodeSame(IncRefForNode(s1, Key(to_, n), strong, false, env.refMem).0, n);
        assert Denotes(s', to_, r.value, n);
      }
    }
  }

  lemma LocalHere(s: State, to_: Pid, o: Obj, cell: Option<Cell>)
    requires Bound(s, to_, o, cell) && o.Binder?
    ensures Nid(to_, o.ptr) in s.nodes
  {
  }

  /** Whatever is translated stands for the same node on the other side. */
  lemma TranslatedSame(s: State, from: Pid, to_: Pid, o: Obj, env: Env)
    requires Inv(s)
    ensures var (s', r) := TranslateOne(s, from, to_, o, env); r.Some? ==> SameThing(s, s', from, to_, o, r.value)
  {
    hide Inv, TranslateBinder, TranslateHandle, Denotes;
    match o
    case Binder(ptr, cookie, strong) => BinderSame(s, from, to_, ptr, cookie, strong, env);
    case Handle(desc, strong) => HandleSame(s, from, to_, desc, strong, env);
    case Other(_) =>
  }
}
