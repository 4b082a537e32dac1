/** Nodes and the references that processes hold on them. */
module NodeRefs {
  import opened Words

  type Pid = nat

  /** A node is identified by its owning process and the user pointer it stands for. */
  datatype Nid = Nid(owner: Pid, ptr: nat)

  datatype Node = Node(
    cookie: nat,
    dead: bool,            // proc == NULL
    internalStrong: int,   // internal_strong_refs
    localStrong: int,
    localWeak: int,
    tmpRefs: int,
    hasStrong: bool,
    hasWeak: bool,
    pendingStrong: bool,
    pendingWeak: bool,
    queued: bool)          // work.entry is on some list

  datatype Ref = Ref(desc: nat, strong: nat, weak: nat)

  datatype Key = Key(p: Pid, n: Nid)

  datatype State = State(nodes: map<Nid, Node>, refs: map<Key, Ref>, ctx: Option<Nid>)

  // ---- Invariant ----

  function Links(s: State, n: Nid): set<Key> {
    set k | k in s.refs && k.n == n
  }

  function Holders(s: State, n: Nid): set<Key> {
    set k | k in s.refs && k.n == n && s.refs[k].strong > 0
  }

  function Descs(s: State, p: Pid): set<nat> {
    set k | k in s.refs && k.p == p :: s.refs[k].desc
  }

  /** Local counts nobody may take away: one the owner has yet to acknowledge, and the context manager's own. */
  function Owed(ctx: Option<Nid>, n: Nid, nd: Node, strong: bool): nat {
    if nd.dead then 0
    else (if (if strong then nd.pendingStrong else nd.pendingWeak) then 1 else 0) + (if ctx == Some(n) then 1 else 0)
  }

  ghost predicate NodeOk(s: State, n: Nid)
    requires n in s.nodes
  {
    var nd := s.nodes[n];
    && nd.internalStrong == |Holders(s, n)|
    && (if nd.dead then nd.localStrong <= 0 else nd.localStrong >= Owed(s.ctx, n, nd, true))
    && nd.localWeak >= Owed(s.ctx, n, nd, false)
    && nd.tmpRefs >= 0
  }

  ghost predicate DescsApart(s: State) {
    forall k, l :: k in s.refs && l in s.refs && k.p == l.p && s.refs[k].desc == s.refs[l].desc ==> k == l
  }

  ghost predicate Inv(s: State) {
    && (forall k :: k in s.refs ==> k.n in s.nodes)
    && (forall n :: n in s.nodes ==> NodeOk(s, n))
    && DescsApart(s)
    && (s.ctx.Some? ==> s.ctx.value in s.nodes && !s.nodes[s.ctx.value].dead)
  }

  // ---- Counts, as totals: what is not there counts nothing ----

  datatype Cell = RefStrong(k: Key) | RefWeak(k: Key) | NodeStrong(n: Nid) | NodeWeak(n: Nid) | NodeTmp(n: Nid)

  function Count(s: State, c: Cell): int {
    match c
    case RefStrong(k) => if k in s.refs then s.refs[k].strong else 0
    case RefWeak(k) => if k in s.refs then s.refs[k].weak else 0
    case NodeStrong(n) => if n in s.nodes then s.nodes[n].localStrong else 0
    case NodeWeak(n) => if n in s.nodes then s.nodes[n].localWeak else 0
    case NodeTmp(n) => if n in s.nodes then s.nodes[n].tmpRefs else 0
  }

  ghost predicate Shifted(s: State, s': State, cell: Cell, by_: int) {
    forall c :: Count(s', c) == Count(s, c) + if c == cell then by_ else 0
  }

  ghost predicate SameCounts(s: State, s': State) {
    forall c :: Count(s', c) == Count(s, c)
  }

  // ---- Node counts ----

  function SetNode(s: State, n: Nid, nd: Node): State {
    s.(nodes := s.nodes[n := nd])
  }

  /** binder_inc_node_nilocked; `listed` says whether a list for the node's work was given. */
  function IncNode(s: State, n: Nid, strong: bool, internal: bool, listed: bool): (State, bool)
    requires n in s.nodes
  {
    var nd := s.nodes[n];
    if strong then
      if internal && !listed && nd.internalStrong == 0 && !(!nd.dead && s.ctx == Some(n) && nd.hasStrong) then (s, false)
      else
        var nd1 := if internal then nd.(internalStrong := nd.internalStrong + 1) else nd.(localStrong := nd.localStrong + 1);
        (SetNode(s, n, if !nd.hasStrong && listed then nd1.(queued := true) else nd1), true)
    else
      var nd1 := if internal then nd else nd.(localWeak := nd.localWeak + 1);
      if !nd.hasWeak && !nd.queued then
        if !listed then (SetNode(s, n, nd1), false) else (SetNode(s, n, nd1.(queued := true)), true)
      else (SetNode(s, n, nd1), true)
  }

  predicate AllZero(s: State, n: Nid, nd: Node) {
    Links(s, n) == {} && nd.localStrong == 0 && nd.localWeak == 0 && nd.tmpRefs == 0
  }

  /** binder_dec_node_nilocked, and the free that follows a true result. */
  function DecNode(s: State, n: Nid, strong: bool, internal: bool): State
    requires n in s.nodes
  {
    var nd := s.nodes[n];
    if strong then
      var nd1 := if internal then nd.(internalStrong := nd.internalStrong - 1) else nd.(localStrong := nd.localStrong - 1);
      if nd1.localStrong != 0 || nd1.internalStrong != 0 then SetNode(s, n, nd1) else DecLast(s, n, nd1)
    else
      var nd1 := if internal then nd else nd.(localWeak := nd.localWeak - 1);
      if nd1.localWeak != 0 || nd1.tmpRefs != 0 || Links(s, n) != {} then SetNode(s, n, nd1) else DecLast(s, n, nd1)
  }

  function DecLast(s: State, n: Nid, nd: Node): State {
    if !nd.dead && (nd.hasStrong || nd.hasWeak) then SetNode(s, n, nd.(queued := true))
    else if AllZero(s, n, nd) then s.(nodes := s.nodes - {n})
    else SetNode(s, n, nd)
  }

  function IncTmp(s: State, n: Nid): State
    requires n in s.nodes
  {
    SetNode(s, n, s.nodes[n].(tmpRefs := s.nodes[n].tmpRefs + 1))
  }

  /** binder_put_node */
  function PutNode(s: State, n: Nid): State
    requires n in s.nodes
  {
    var s1 := SetNode(s, n, s.nodes[n].(tmpRefs := s.nodes[n].tmpRefs - 1));
    DecNode(s1, n, false, true)
  }

  // ---- Descriptors ----

  /** The smallest number from d on that is not used. */
  function FirstFree(used: set<nat>, d: nat): (r: nat)
    ensures d <= r && r !in used && forall e: nat :: d <= e < r ==> e in used
    decreases |used|
  {
    if d in used then
      var r := FirstFree(used - {d}, d + 1);
      StepUp(used, d, r);
      r
    else d
  }

  lemma StepUp(used: set<nat>, d: nat, r: nat)
    requires d in used && r !in used - {d} && d < r && forall e: nat :: d + 1 <= e < r ==> e in used - {d}
    ensures r !in used && forall e: nat :: d <= e < r ==> e in used
  {
    forall e: nat | d <= e < r ensures e in used { assert e == d || e in used - {d}; }
  }

  /** The search of binder_get_ref_for_node_olocked through the references in order of descriptor. */
  method NewDesc(q: seq<nat>, isCtx: bool, ghost used: set<nat>) returns (desc: nat)
    requires Ascending(q) && forall d :: d in used <==> d in q
    ensures desc == FirstFree(used, if isCtx then 0 else 1)
  {
    var base := if isCtx then 0 else 1;
    desc := base;
    var i := 0;
    while i < |q|
      invariant 0 <= i <= |q| && desc >= base
      invariant i > 0 ==> desc == q[i - 1] + 1
      invariant forall e: nat :: base <= e < desc ==> e in q
    {
      if q[i] > desc { break; }
      assert q[i] in q && (i > 0 ==> q[i - 1] < q[i]);
      desc := q[i] + 1;
      i := i + 1;
    }
    if desc in q {
      var j :| 0 <= j < |q| && q[j] == desc;
      BelowDesc(q, i, j, desc);
    }
    FirstFreeUnique(used, base, desc);
  }

  /** Nothing before i reaches desc, nothing from i on stays below or at it. */
  lemma BelowDesc(q: seq<nat>, i: nat, j: nat, desc: nat)
    requires Ascending(q) && i <= |q| && j < |q|
    requires i > 0 ==> desc == q[i - 1] + 1
    requires i < |q| ==> q[i] > desc
    ensures q[j] != desc
  {
    if j < i - 1 { assert q[j] < q[i - 1]; }
    if j > i { assert q[i] < q[j]; }
  }

  lemma FirstFreeUnique(used: set<nat>, base: nat, d: nat)
    requires base <= d && d !in used && forall e: nat :: base <= e < d ==> e in used
    ensures d == FirstFree(used, base)
  {
  }

  // ---- References ----

  function SetRef(s: State, k: Key, r: Ref): State {
    s.(refs := s.refs[k := r])
  }

  function Base(s: State, n: Nid): nat {
    if s.ctx == Some(n) then 0 else 1
  }

  /** The reference of p to n, linked with the smallest unused descriptor if it was missing. */
  function Linked(s: State, k: Key): State {
    if k in s.refs then s else SetRef(s, k, Ref(FirstFree(Descs(s, k.p), Base(s, k.n)), 0, 0))
  }

  /** binder_inc_ref_olocked */
  function IncRef(s: State, k: Key, strong: bool, listed: bool): (State, bool)
    requires k in s.refs && k.n in s.nodes
  {
    var r := s.refs[k];
    var (s1, ok) := if (if strong then r.strong else r.weak) == 0 then IncNode(s, k.n, strong, true, listed) else (s, true);
    if !ok then (s1, false)
    else (SetRef(s1, k, if strong then r.(strong := r.strong + 1) else r.(weak := r.weak + 1)), true)
  }

  /** binder_inc_ref_for_node: the descriptor on success. */
  function IncRefForNode(s: State, k: Key, strong: bool, listed: bool, memOk: bool): (State, Option<nat>)
    requires k.n in s.nodes
  {
    if k !in s.refs && !memOk then (s, None)
    else
      var s1 := Linked(s, k);
      var (s2, ok) := IncRef(s1, k, strong, listed);
      (s2, if ok then Some(s1.refs[k].desc) else None)
  }

  /** binder_cleanup_ref_olocked */
  function Cleanup(s: State, k: Key): State
    requires k in s.refs && k.n in s.nodes
    requires s.refs[k].strong > 0 ==> k.n in DecNode(s, k.n, true, true).nodes
  {
    var s1 := if s.refs[k].strong > 0 then DecNode(s, k.n, true, true) else s;
    DecNode(s1.(refs := s1.refs - {k}), k.n, false, true)
  }

  /** binder_dec_ref_olocked; a count that is already zero is left alone. */
  function DecRef(s: State, k: Key, strong: bool): State
    requires k in s.refs && k.n in s.nodes
  {
    var r := s.refs[k];
    if (if strong then r.strong else r.weak) == 0 then s
    else
      var r1 := if strong then r.(strong := r.strong - 1) else r.(weak := r.weak - 1);
      var s1 := SetRef(s, k, r1);
      var s2 := if strong && r1.strong == 0 then DecNode(s1, k.n, true, true) else s1;
      if r1.strong == 0 && r1.weak == 0 then
        assert k.n in s2.nodes by { LinkedStays(s1, k); }
        DecNode(s2.(refs := s2.refs - {k}), k.n, false, true)
      else s2
  }

  /** A node that something links to is not freed by a decrement. */
  lemma LinkedStays(s: State, k: Key)
    requires k in s.refs && k.n in s.nodes
    ensures forall strong, internal :: k.n in DecNode(s, k.n, strong, internal).nodes
  {
    assert k in Links(s, k.n);
  }

  // ---- What each step does to the counts ----

  /** The node after the subtraction, before the question whether it can go. */
  function Decremented(nd: Node, strong: bool, internal: bool): Node {
    if strong then if internal then nd.(internalStrong := nd.internalStrong - 1) else nd.(localStrong := nd.localStrong - 1)
    else if internal then nd else nd.(localWeak := nd.localWeak - 1)
  }

  /** A node is freed only when every count of it is zero and nothing links to it, although the
      last test does not look at internal_strong_refs. */
  lemma FreedOnlyWhenZero(s: State, n: Nid, strong: bool, internal: bool)
    requires n in s.nodes && Inv(SetNode(s, n, Decremented(s.nodes[n], strong, internal)))
    ensures n !in DecNode(s, n, strong, internal).nodes ==>
              var nd := Decremented(s.nodes[n], strong, internal);
              Links(s, n) == {} && nd.internalStrong == 0 && nd.localStrong == 0 && nd.localWeak == 0 && nd.tmpRefs == 0
  {
    var s1 := SetNode(s, n, Decremented(s.nodes[n], strong, internal));
    assert NodeOk(s1, n);
    assert Links(s, n) == Links(s1, n);
    if Links(s1, n) == {} { HoldersLink(s1, n); }
  }

  lemma HoldersLink(s: State, n: Nid)
    ensures Holders(s, n) <= Links(s, n)
    ensures Links(s, n) == {} ==> |Holders(s, n)| == 0
  {
    if Links(s, n) == {} { assert Holders(s, n) == {}; }
  }

  lemma NodesFrame(s: State, s': State, n: Nid)
    requires Inv(s) && s'.refs == s.refs && s'.ctx == s.ctx && n in s.nodes && n in s'.nodes
    requires s'.nodes[n].internalStrong == s.nodes[n].internalStrong && s'.nodes[n].localStrong == s.nodes[n].localStrong
    requires s'.nodes[n].localWeak == s.nodes[n].localWeak && s'.nodes[n].tmpRefs == s.nodes[n].tmpRefs
    requires s'.nodes[n].pendingStrong == s.nodes[n].pendingStrong && s'.nodes[n].pendingWeak == s.nodes[n].pendingWeak
    requires s'.nodes[n].dead == s.nodes[n].dead
    ensures NodeOk(s', n)
  {
    assert NodeOk(s, n);
    assert Holders(s', n) == Holders(s, n);
  }

  lemma RequeueKeeps(s: State, n: Nid, nd: Node)
    requires n in s.nodes && Inv(SetNode(s, n, nd))
    ensures Inv(SetNode(s, n, nd.(queued := true))) && SameCounts(SetNode(s, n, nd), SetNode(s, n, nd.(queued := true)))
  {
    hide Holders, DescsApart;
    var s1, s' := SetNode(s, n, nd), SetNode(s, n, nd.(queued := true));
    forall m | m in s'.nodes ensures NodeOk(s', m) { NodesFrame(s1, s', m); }
    assert DescsApart(s') by { SameDescs(s1, s'); }
  }

  lemma SameDescs(s: State, s': State)
    requires DescsApart(s) && s'.refs == s.refs
    ensures DescsApart(s')
  {
  }

  lemma RemoveKeeps(s: State, n: Nid, nd: Node)
    requires n in s.nodes && Inv(SetNode(s, n, nd)) && AllZero(s, n, nd)
    ensures Inv(s.(nodes := s.nodes - {n})) && SameCounts(SetNode(s, n, nd), s.(nodes := s.nodes - {n}))
  {
    hide Holders, DescsApart;
    var s1, s' := SetNode(s, n, nd), s.(nodes := s.nodes - {n});
    assert NodeOk(s1, n);
    forall m | m in s'.nodes ensures NodeOk(s', m) { NodesFrame(s1, s', m); }
    forall k | k in s'.refs ensures k.n in s'.nodes { assert k.n == n ==> k in Links(s, n); }
    assert DescsApart(s') by { SameDescs(s1, s'); }
  }

  /** Queueing work or freeing the node changes no count. */
  lemma DecLastKeeps(s: State, n: Nid, nd: Node)
    requires Inv(SetNode(s, n, nd)) && n in s.nodes
    ensures Inv(DecLast(s, n, nd)) && SameCounts(SetNode(s, n, nd), DecLast(s, n, nd))
    ensures forall m :: m in s.nodes && m != n ==> m in DecLast(s, n, nd).nodes && DecLast(s, n, nd).nodes[m] == s.nodes[m]
    ensures DecLast(s, n, nd).refs == s.refs && DecLast(s, n, nd).nodes.Keys <= s.nodes.Keys
    ensures n in DecLast(s, n, nd).nodes ==> DecLast(s, n, nd).nodes[n].dead == nd.dead
  {
    hide Inv, SameCounts, AllZero;
    RequeueKeeps(s, n, nd);
    if AllZero(s, n, nd) { RemoveKeeps(s, n, nd); }
    SameCountsRefl(SetNode(s, n, nd));
  }

  lemma DecNodeKeeps(s: State, n: Nid, strong: bool, internal: bool)
    requires n in s.nodes && Inv(SetNode(s, n, Decremented(s.nodes[n], strong, internal)))
    ensures var s1, s' := SetNode(s, n, Decremented(s.nodes[n], strong, internal)), DecNode(s, n, strong, internal);
            && Inv(s') && SameCounts(s1, s') && s'.refs == s.refs && s'.nodes.Keys <= s.nodes.Keys
            && (forall m :: m in s.nodes && m != n ==> m in s'.nodes && s'.nodes[m] == s.nodes[m])
            && (n in s'.nodes ==> s'.nodes[n].dead == s.nodes[n].dead)
  {
    hide Inv, DecLast, SameCounts, Links;
    DecLastKeeps(s, n, Decremented(s.nodes[n], strong, internal));
    SameCountsRefl(SetNode(s, n, Decremented(s.nodes[n], strong, internal)));
  }

  lemma SameCountsRefl(s: State)
    ensures SameCounts(s, s)
  {
  }

  // ---- References: what each operation does ----

  lemma NodeAt(s: State, n: Nid)
    requires Inv(s) && n in s.nodes
    ensures NodeOk(s, n)
  {
  }

  /** Giving k its first strong count adds one holder; taking its last one away removes it. */
  lemma HolderAdded(s: State, k: Key, r: Ref)
    requires k in s.refs && s.refs[k].strong == 0 && r.strong > 0
    ensures |Holders(SetRef(s, k, r), k.n)| == |Holders(s, k.n)| + 1
  {
    assert Holders(SetRef(s, k, r), k.n) == Holders(s, k.n) + {k};
  }

  lemma HolderRemoved(s: State, k: Key, r: Ref)
    requires k in s.refs && s.refs[k].strong > 0 && r.strong == 0
    ensures |Holders(SetRef(s, k, r), k.n)| == |Holders(s, k.n)| - 1
  {
    assert Holders(SetRef(s, k, r), k.n) == Holders(s, k.n) - {k};
    assert k in Holders(s, k.n);
  }

  lemma HolderSame(s: State, k: Key, r: Ref, n: Nid)
    requires k in s.refs && (k.n != n || (s.refs[k].strong > 0 <==> r.strong > 0))
    ensures Holders(SetRef(s, k, r), n) == Holders(s, n)
  {
  }

  lemma SameDescKept(s: State, k: Key, r: Ref)
    requires DescsApart(s) && k in s.refs && r.desc == s.refs[k].desc
    ensures DescsApart(SetRef(s, k, r))
  {
  }

  /** A reference's count changes by one; the node's internal count follows the holders. */
  lemma SetRefInv(s: State, k: Key, r: Ref, nd: Node)
    requires Inv(s) && k in s.refs && r.desc == s.refs[k].desc
    requires nd.internalStrong == s.nodes[k.n].internalStrong + (if r.strong > 0 then 1 else 0) - (if s.refs[k].strong > 0 then 1 else 0)
    requires nd.localStrong == s.nodes[k.n].localStrong && nd.localWeak == s.nodes[k.n].localWeak && nd.tmpRefs == s.nodes[k.n].tmpRefs
    requires nd.pendingStrong == s.nodes[k.n].pendingStrong && nd.pendingWeak == s.nodes[k.n].pendingWeak && nd.dead == s.nodes[k.n].dead
    ensures Inv(SetRef(SetNode(s, k.n, nd), k, r))
  {
    hide DescsApart;
    var s' := SetRef(SetNode(s, k.n, nd), k, r);
    forall m | m in s'.nodes ensures NodeOk(s', m) {
      NodeAt(s, m);
      assert Holders(s', m) == Holders(SetRef(s, k, r), m);
      if s.refs[k].strong == 0 && r.strong > 0 { HolderAdded(s, k, r); }
      if s.refs[k].strong > 0 && r.strong == 0 { HolderRemoved(s, k, r); }
      if k.n != m || (s.refs[k].strong > 0 <==> r.strong > 0) { HolderSame(s, k, r, m); }
    }
    SameDescKept(s, k, r);
    SameDescs(SetRef(s, k, r), s');
  }

  /** What stays when counts of one reference change. */
  ghost predicate Frame(s: State, s': State, k: Key) {
    && s'.nodes.Keys == s.nodes.Keys && s'.refs.Keys == s.refs.Keys && s'.ctx == s.ctx
    && (forall n :: n in s.nodes ==> s'.nodes[n].dead == s.nodes[n].dead && s'.nodes[n].cookie == s.nodes[n].cookie)
    && (forall l :: l in s.refs ==> s'.refs[l].desc == s.refs[l].desc)
  }

  function RefCell(k: Key, strong: bool): Cell {
    if strong then RefStrong(k) else RefWeak(k)
  }

  lemma IncRefShifts(s: State, k: Key, strong: bool, listed: bool)
    requires Inv(s) && k in s.refs && k.n in s.nodes
    ensures var (s', ok) := IncRef(s, k, strong, listed);
            && Inv(s') && Frame(s, s', k)
            && (if ok then Shifted(s, s', RefCell(k, strong), 1) else SameCounts(s, s'))
    ensures strong && (|Holders(s, k.n)| > 0 || listed) ==> IncRef(s, k, strong, listed).1
  {
    hide Inv, Holders, Links, DescsApart, NodeOk, IncRef, SetNode, SetRef, Shifted, SameCounts, Frame;
    var (s', ok) := IncRef(s, k, strong, listed);
    KeyNode(s, k);
    InternalIs(s, k.n);
    IncRefIs(s, k, strong, listed);
    IncRefOk(s, k, strong, listed);
    if ok {
      SetRefInv(s, k, s'.refs[k], s'.nodes[k.n]);
      SetRefShifts(s, k, strong, s'.refs[k], s'.nodes[k.n]);
    } else {
      SameState(s, k);
    }
  }

  /** What an increment writes: the reference, and of the node what goes with its first count. */
  lemma IncRefIs(s: State, k: Key, strong: bool, listed: bool)
    requires k in s.refs && k.n in s.nodes
    ensures var (s', ok) := IncRef(s, k, strong, listed);
            if !ok then s' == s
            else
              && k in s'.refs && k.n in s'.nodes && s' == SetRef(SetNode(s, k.n, s'.nodes[k.n]), k, s'.refs[k])
              && s'.refs[k] == (if strong then s.refs[k].(strong := s.refs[k].strong + 1) else s.refs[k].(weak := s.refs[k].weak + 1))
              && s'.nodes[k.n] == s.nodes[k.n].(internalStrong := s'.nodes[k.n].internalStrong, queued := s'.nodes[k.n].queued)
              && s'.nodes[k.n].internalStrong == s.nodes[k.n].internalStrong + (if strong && s.refs[k].strong == 0 then 1 else 0)
  {
    hide Links, Holders;
    var (s', ok) := IncRef(s, k, strong, listed);
    if ok {
      assert s' == SetRef(SetNode(s, k.n, s'.nodes[k.n]), k, s'.refs[k]);
    } else {
      assert s'.nodes == s.nodes;
    }
  }

  lemma IncRefOk(s: State, k: Key, strong: bool, listed: bool)
    requires k in s.refs && k.n in s.nodes
    ensures strong && (s.nodes[k.n].internalStrong > 0 || listed) ==> IncRef(s, k, strong, listed).1
  {
    hide Links, Holders;
  }

  lemma SetRefShifts(s: State, k: Key, strong: bool, r: Ref, nd: Node)
    requires k in s.refs && k.n in s.nodes
    requires r == if strong then s.refs[k].(strong := s.refs[k].strong + 1) else s.refs[k].(weak := s.refs[k].weak + 1)
    requires nd == s.nodes[k.n].(internalStrong := nd.internalStrong, queued := nd.queued)
    ensures var s' := SetRef(SetNode(s, k.n, nd), k, r); Shifted(s, s', RefCell(k, strong), 1) && Frame(s, s', k)
  {
    hide Links, Holders;
  }

  lemma SameState(s: State, k: Key)
    ensures SameCounts(s, s) && Frame(s, s, k)
  {
  }

  lemma KeyNode(s: State, k: Key)
    requires Inv(s) && k in s.refs
    ensures k.n in s.nodes
  {
  }

  lemma InternalIs(s: State, n: Nid)
    requires Inv(s) && n in s.nodes
    ensures s.nodes[n].internalStrong == |Holders(s, n)|
  {
    assert NodeOk(s, n);
  }

  /** A new reference takes an unused descriptor, so the duplicate BUG cannot be reached. */
  lemma LinkedKeeps(s: State, k: Key)
    requires Inv(s) && k.n in s.nodes
    ensures Inv(Linked(s, k)) && SameCounts(s, Linked(s, k)) && k in Linked(s, k).refs
    ensures k !in s.refs ==> Linked(s, k).refs[k].desc !in Descs(s, k.p)
    ensures Linked(s, k).nodes == s.nodes && Linked(s, k).ctx == s.ctx
    ensures forall l :: l in s.refs ==> l in Linked(s, k).refs && Linked(s, k).refs[l] == s.refs[l]
  {
    hide NodeOk, SameCounts, DescsApart, FirstFree, Descs;
    SameCountsRefl(s);
    if k !in s.refs {
      var r := Ref(FirstFree(Descs(s, k.p), Base(s, k.n)), 0, 0);
      forall m | m in s.nodes ensures NodeOk(SetRef(s, k, r), m) { FreshNode(s, k, r, m); }
      FreshDesc(s, k, r);
      FreshCounts(s, k, r);
    }
  }

  lemma FreshNode(s: State, k: Key, r: Ref, m: Nid)
    requires Inv(s) && m in s.nodes && k !in s.refs && r.strong == 0
    ensures NodeOk(SetRef(s, k, r), m)
  {
    NodeAt(s, m);
    assert Holders(SetRef(s, k, r), m) == Holders(s, m);
  }

  lemma FreshDesc(s: State, k: Key, r: Ref)
    requires DescsApart(s) && k !in s.refs && r.desc !in Descs(s, k.p)
    ensures DescsApart(SetRef(s, k, r))
  {
    forall l | l in s.refs && l.p == k.p ensures s.refs[l].desc in Descs(s, k.p) { }
  }

  lemma FreshCounts(s: State, k: Key, r: Ref)
    requires k !in s.refs && r.strong == 0 && r.weak == 0
    ensures SameCounts(s, SetRef(s, k, r))
  {
  }

  lemma IncRefForNodeShifts(s: State, k: Key, strong: bool, listed: bool, memOk: bool)
    requires Inv(s) && k.n in s.nodes
    ensures var (s', d) := IncRefForNode(s, k, strong, listed, memOk);
            && Inv(s')
            && (if d.Some? then Shifted(s, s', RefCell(k, strong), 1) && k in s'.refs && s'.refs[k].desc == d.value else SameCounts(s, s'))
            && s'.nodes.Keys == s.nodes.Keys && s'.ctx == s.ctx
            && (forall n :: n in s.nodes ==> s'.nodes[n].dead == s.nodes[n].dead && s'.nodes[n].cookie == s.nodes[n].cookie)
            && (forall l :: l in s.refs ==> l in s'.refs && s'.refs[l].desc == s.refs[l].desc)
    ensures strong && memOk && (|Holders(s, k.n)| > 0 || listed) ==> IncRefForNode(s, k, strong, listed, memOk).1.Some?
  {
    hide Inv, Linked, IncRef, Holders;
    LinkedKeeps(s, k);
    SameCountsRefl(s);
    LinkedHolders(s, k);
    var s1 := Linked(s, k);
    if k in s.refs || memOk { IncRefShifts(s1, k, strong, listed); }
    LinkedSelf(s, k);
  }

  lemma LinkedHolders(s: State, k: Key)
    ensures Holders(Linked(s, k), k.n) == Holders(s, k.n)
  {
  }

  lemma LinkedSelf(s: State, k: Key)
    ensures k in s.refs ==> Linked(s, k) == s
  {
  }

  function Unlinked(s: State, k: Key): State {
    s.(refs := s.refs - {k})
  }

  /** A reference without counts can be unlinked. */
  lemma UnlinkKeeps(s: State, k: Key)
    requires Inv(s) && k in s.refs && s.refs[k].strong == 0 && s.refs[k].weak == 0
    ensures Inv(Unlinked(s, k)) && SameCounts(s, Unlinked(s, k))
  {
    hide SameCounts, NodeOk;
    var s' := Unlinked(s, k);
    forall m | m in s'.nodes ensures NodeOk(s', m) { UnlinkNode(s, k, m); }
    UnlinkCounts(s, k);
  }

  lemma UnlinkNode(s: State, k: Key, m: Nid)
    requires Inv(s) && m in s.nodes && k in s.refs && s.refs[k].strong == 0
    ensures NodeOk(Unlinked(s, k), m)
  {
    NodeAt(s, m);
    assert Holders(Unlinked(s, k), m) == Holders(s, m);
  }

  lemma UnlinkCounts(s: State, k: Key)
    requires k in s.refs && s.refs[k].strong == 0 && s.refs[k].weak == 0
    ensures SameCounts(s, Unlinked(s, k))
  {
  }

  /** What a step leaves alone: every other node, and the identity of what remains. */
  ghost predicate Later(s: State, s': State) {
    && s'.ctx == s.ctx
    && (forall n :: n in s'.nodes ==> n in s.nodes && s'.nodes[n].dead == s.nodes[n].dead)
    && (forall l :: l in s'.refs ==> l in s.refs && s'.refs[l].desc == s.refs[l].desc)
    && (forall l :: l in s.refs && (Count(s', RefStrong(l)) > 0 || Count(s', RefWeak(l)) > 0) ==> l in s'.refs)
    && (forall n :: n in s.nodes && (Count(s', NodeStrong(n)) != 0 || Count(s', NodeWeak(n)) != 0) ==> n in s'.nodes)
  }

  lemma LaterTrans(s: State, s1: State, s2: State)
    requires Later(s, s1) && Later(s1, s2) && SameCounts(s1, s2)
    ensures Later(s, s2)
  {
    forall l | l in s.refs && (Count(s2, RefStrong(l)) > 0 || Count(s2, RefWeak(l)) > 0) ensures l in s2.refs {
      assert Count(s2, RefStrong(l)) == Count(s1, RefStrong(l)) && Count(s2, RefWeak(l)) == Count(s1, RefWeak(l));
    }
  }

  lemma DecNodeLater(s: State, n: Nid, strong: bool, internal: bool)
    requires n in s.nodes && Inv(SetNode(s, n, Decremented(s.nodes[n], strong, internal)))
    ensures Later(s, DecNode(s, n, strong, internal))
  {
    hide Inv, SameCounts, DecNode;
    DecNodeKeeps(s, n, strong, internal);
    DecNodeCtx(s, n, strong, internal);
  }

  lemma DecNodeCtx(s: State, n: Nid, strong: bool, internal: bool)
    requires n in s.nodes
    ensures DecNode(s, n, strong, internal).ctx == s.ctx
  {
  }

  lemma SetRefOrder(s: State, k: Key, r: Ref, nd: Node)
    ensures SetNode(SetRef(s, k, r), k.n, nd) == SetRef(SetNode(s, k.n, nd), k, r)
  {
  }

  /** The first half of a decrement: the count itself, and the node's internal count. */
  function Lowered(s: State, k: Key, strong: bool): State
    requires k in s.refs && k.n in s.nodes
  {
    var r := s.refs[k];
    var r1 := if strong then r.(strong := if r.strong > 0 then r.strong - 1 else 0) else r.(weak := if r.weak > 0 then r.weak - 1 else 0);
    var s1 := SetRef(s, k, r1);
    if strong && r1.strong == 0 then DecNode(s1, k.n, true, true) else s1
  }

  lemma LoweredShifts(s: State, k: Key, strong: bool)
    requires Inv(s) && k in s.refs && k.n in s.nodes && Count(s, RefCell(k, strong)) > 0
    ensures var s' := Lowered(s, k, strong);
            && Inv(s') && Shifted(s, s', RefCell(k, strong), -1) && Later(s, s')
            && k in s'.refs && k.n in s'.nodes
            && s'.refs[k] == (if strong then s.refs[k].(strong := s.refs[k].strong - 1) else s.refs[k].(weak := s.refs[k].weak - 1))
  {
    hide Inv, DecNode, Later, SameCounts, Shifted;
    var r := s.refs[k];
    var r1 := if strong then r.(strong := r.strong - 1) else r.(weak := r.weak - 1);
    var s1 := SetRef(s, k, r1);
    if strong && r1.strong == 0 {
      var nd := Decremented(s.nodes[k.n], true, true);
      SetRefOrder(s, k, r1, nd);
      SetRefInv(s, k, r1, nd);
      DecNodeKeeps(s1, k.n, true, true);
      DecNodeLater(s1, k.n, true, true);
      LinkedStays(s1, k);
      LoweredCounts(s, k, strong, r1, SetNode(s1, k.n, nd), DecNode(s1, k.n, true, true));
    } else {
      SetNodeSelf(s, k.n);
      SetRefInv(s, k, r1, s.nodes[k.n]);
      SameCountsRefl(s1);
      LoweredCounts(s, k, strong, r1, s1, s1);
      LaterRefl(s1);
    }
    LaterSet(s, k, r1, Lowered(s, k, strong));
  }

  lemma SetNodeSelf(s: State, n: Nid)
    requires n in s.nodes
    ensures SetNode(s, n, s.nodes[n]) == s
  {
  }

  lemma LaterRefl(s: State)
    ensures Later(s, s)
  {
  }

  lemma LaterSet(s: State, k: Key, r1: Ref, s2: State)
    requires k in s.refs && r1.desc == s.refs[k].desc && Later(SetRef(s, k, r1), s2) && k in s2.refs
    ensures Later(s, s2)
  {
  }

  predicate SameNode(nd: Node, nd': Node) {
    nd'.localStrong == nd.localStrong && nd'.localWeak == nd.localWeak && nd'.tmpRefs == nd.tmpRefs
  }

  lemma LoweredCounts(s: State, k: Key, strong: bool, r1: Ref, mid: State, s': State)
    requires k in s.refs && k.n in s.nodes && Count(s, RefCell(k, strong)) > 0
    requires r1 == if strong then s.refs[k].(strong := s.refs[k].strong - 1) else s.refs[k].(weak := s.refs[k].weak - 1)
    requires mid.refs == s.refs[k := r1] && mid.nodes.Keys == s.nodes.Keys
    requires forall n :: n in s.nodes ==> SameNode(s.nodes[n], mid.nodes[n])
    requires SameCounts(mid, s')
    ensures Shifted(s, s', RefCell(k, strong), -1)
  {
  }

  /** binder_dec_ref_olocked takes one from the count it was asked for, if that is not zero already, and from nothing else. */
  lemma DecRefShifts(s: State, k: Key, strong: bool)
    requires Inv(s) && k in s.refs && k.n in s.nodes
    ensures var s' := DecRef(s, k, strong);
            && Inv(s') && Later(s, s')
            && (if Count(s, RefCell(k, strong)) > 0 then Shifted(s, s', RefCell(k, strong), -1) else s' == s)
  {
    hide Inv, DecNode, Later, SameCounts, Shifted;
    LaterRefl(s);
    if Count(s, RefCell(k, strong)) > 0 {
      LoweredShifts(s, k, strong);
      var s2 := Lowered(s, k, strong);
      if s2.refs[k].strong == 0 && s2.refs[k].weak == 0 {
        var s3 := Unlinked(s2, k);
        UnlinkKeeps(s2, k);
        SetNodeSelf(s3, k.n);
        DecNodeKeeps(s3, k.n, false, true);
        DecNodeLater(s3, k.n, false, true);
        assert DecRef(s, k, strong) == DecNode(s3, k.n, false, true);
        SameCountsTrans(s2, s3, DecNode(s3, k.n, false, true));
        ShiftedSame(s, s2, DecNode(s3, k.n, false, true), RefCell(k, strong), -1);
        UnlinkLater(s2, k);
        LaterTrans(s2, s3, DecNode(s3, k.n, false, true));
        LaterTrans(s, s2, DecNode(s3, k.n, false, true));
      } else {
        assert DecRef(s, k, strong) == s2;
      }
    }
  }

  lemma UnlinkLater(s: State, k: Key)
    requires k in s.refs && s.refs[k].strong == 0 && s.refs[k].weak == 0
    ensures Later(s, Unlinked(s, k))
  {
  }

  lemma SameCountsTrans(a: State, b: State, c: State)
    requires SameCounts(a, b) && SameCounts(b, c)
    ensures SameCounts(a, c)
  {
  }

  lemma ShiftedSame(a: State, b: State, c: State, cell: Cell, d: int)
    requires Shifted(a, b, cell, d) && SameCounts(b, c)
    ensures Shifted(a, c, cell, d)
  {
  }
}
