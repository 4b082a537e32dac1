/** Death notifications of one process: requested on a reference, queued when the node dies, cleared,
    delivered, acknowledged, and freed. */
module Death {
  import opened Words

  type Rid = nat   // references of the process
  type Did = nat   // notifications, in order of creation
  type Tid = nat
  type Nid = nat

  /** work.type of a notification; Unset before it is ever queued. */
  datatype Kind = Unset | DeadBinder | DeadAndClear | Clear

  /** The list its work item is on. */
  datatype Place = Nowhere | OnProc | OnDelivered | OnThread(t: Tid)

  /** `ref` says which reference points to it; the driver has that pointer only in the other direction. */
  datatype Death = Death(cookie: nat, kind: Kind, place: Place, ref: Option<Rid>)

  datatype Ref = Ref(node: Nid, death: Option<Did>)

  datatype State = State(
    refs: map<Rid, Ref>,
    deaths: map<Did, Death>,
    procTodo: seq<Did>,
    delivered: seq<Did>,
    threadTodo: map<Tid, seq<Did>>,
    deadNodes: set<Nid>,
    nextId: Did)

  /** What user space saw of a notification: for the proofs. */
  datatype Seen = Seen(deadSent: nat, doneReceived: nat, cleared: bool, clearDone: nat)

  datatype Log = Log(seen: map<Did, Seen>, freed: set<Did>)

  /** Attached to a reference: if it is on a list its type is DEAD_BINDER and the node is dead.
      Detached: it is on a list, on its way to be cleared. */
  ghost predicate DeathOk(s: State, d: Did)
    requires d in s.deaths
  {
    var e := s.deaths[d];
    && d < s.nextId
    && match e.ref
       case Some(r) =>
         && r in s.refs && s.refs[r].death == Some(d)
         && e.kind in {Unset, DeadBinder} && !e.place.OnThread?
         && (e.kind == DeadBinder <==> s.refs[r].node in s.deadNodes)
         && (e.place != Nowhere ==> e.kind == DeadBinder)
       case None =>
         match e.place
         case Nowhere => false
         case OnProc => e.kind in {DeadAndClear, Clear}
         case OnDelivered => e.kind == DeadAndClear
         case OnThread(_) => e.kind == Clear
  }

  /** How often a death was reported, as the notification itself tells: not before it is read off the process's list, and
      once from then on. So no death is lost and none is reported twice. */
  ghost predicate SentOk(e: Death, deadSent: nat) {
    match e.kind
    case Unset => deadSent == 0
    case Clear => deadSent <= 1
    case _ => deadSent == if e.place == OnProc then 0 else 1
  }

  ghost predicate SeenOk(s: State, g: Log, d: Did)
    requires d in s.deaths
  {
    && d in g.seen && d !in g.freed
    && g.seen[d].clearDone == 0
    && g.seen[d].cleared == (s.deaths[d].ref == None)
    && SentOk(s.deaths[d], g.seen[d].deadSent)
    && g.seen[d].deadSent == g.seen[d].doneReceived + if s.deaths[d].place == OnDelivered then 1 else 0
  }

  ghost predicate ListsOk(s: State) {
    && Distinct(s.procTodo) && Distinct(s.delivered)
    && (forall d :: d in s.procTodo <==> d in s.deaths && s.deaths[d].place == OnProc)
    && (forall d :: d in s.delivered <==> d in s.deaths && s.deaths[d].place == OnDelivered)
    && (forall t :: t in s.threadTodo ==> Distinct(s.threadTodo[t]))
    && (forall t, d :: t in s.threadTodo ==> (d in s.threadTodo[t] <==> d in s.deaths && s.deaths[d].place == OnThread(t)))
    && (forall d :: d in s.deaths && s.deaths[d].place.OnThread? ==> s.deaths[d].place.t in s.threadTodo)
  }

  /** References and attached notifications point at each other; a process has one reference to a node. */
  ghost predicate RefsOk(s: State) {
    && (forall r :: r in s.refs && s.refs[r].death.Some? ==>
          s.refs[r].death.value in s.deaths && s.deaths[s.refs[r].death.value].ref == Some(r))
    && (forall r, q :: r in s.refs && q in s.refs && s.refs[r].node == s.refs[q].node ==> r == q)
  }

  /** What is freed is gone for good, after at most one report that it was cleared; if its death was
      reported, that had been acknowledged by then. */
  ghost predicate FreedOk(s: State, g: Log, d: Did) {
    d in g.freed ==>
      && d < s.nextId && d !in s.deaths && d in g.seen && g.seen[d].clearDone <= 1 && g.seen[d].deadSent <= 1
      && (g.seen[d].clearDone == 1 ==> g.seen[d].cleared && g.seen[d].deadSent == g.seen[d].doneReceived)
  }

  ghost predicate Known(s: State, g: Log) {
    forall d :: d in g.seen <==> d in s.deaths || d in g.freed
  }

  ghost predicate Inv(s: State, g: Log) {
    && RefsOk(s)
    && (forall d :: d in s.deaths ==> DeathOk(s, d) && SeenOk(s, g, d))
    && (forall d :: FreedOk(s, g, d))
    && Known(s, g)
    && ListsOk(s)
  }

  // ---- Lists ----

  function WithoutDid(q: seq<Did>, d: Did): (r: seq<Did>)
    ensures forall e :: e in r <==> e in q && e != d
  {
    if q == [] then [] else if q[0] == d then WithoutDid(q[1..], d) else [q[0]] + WithoutDid(q[1..], d)
  }

  lemma {:induction false} WithoutDistinct(q: seq<Did>, d: Did)
    requires Distinct(q)
    ensures Distinct(WithoutDid(q, d))
  {
    if q != [] {
      WithoutDistinct(q[1..], d);
      assert forall i :: 0 <= i < |q[1..]| ==> q[1..][i] == q[i + 1];
      assert q[0] !in q[1..];
      if q[0] != d {
        var r := WithoutDid(q[1..], d);
        assert forall i :: 0 <= i < |r| ==> r[i] in r;
      }
    }
  }

  /** d is off the list q, and the others keep their order. */
  ghost predicate OffList(q: seq<Did>, q': seq<Did>, d: Did) {
    if d in q then exists i :: 0 <= i < |q| && q[i] == d && q' == q[..i] + q[i + 1..] else q' == q
  }

  lemma {:induction false} WithoutSame(q: seq<Did>, d: Did)
    requires d !in q
    ensures WithoutDid(q, d) == q
  {
    if q != [] { WithoutSame(q[1..], d); }
  }

  lemma {:induction false} WithoutIs(q: seq<Did>, d: Did)
    requires Distinct(q)
    ensures OffList(q, WithoutDid(q, d), d)
    ensures q != [] && q[0] == d ==> WithoutDid(q, d) == q[1..]
  {
    if d !in q {
      WithoutSame(q, d);
    } else if q[0] == d {
      assert forall i :: 0 <= i < |q[1..]| ==> q[1..][i] == q[i + 1];
      WithoutSame(q[1..], d);
      assert q[..0] + q[0 + 1..] == q[1..];
    } else {
      assert forall i :: 0 <= i < |q[1..]| ==> q[1..][i] == q[i + 1];
      WithoutIs(q[1..], d);
      LaterOff(q, WithoutDid(q[1..], d), d);
    }
  }

  lemma LaterOff(q: seq<Did>, rest: seq<Did>, d: Did)
    requires q != [] && d in q[1..] && OffList(q[1..], rest, d)
    ensures OffList(q, [q[0]] + rest, d)
  {
    var tail := q[1..];
    assert q == [q[0]] + tail;
    var i: nat :| i < |tail| && tail[i] == d && rest == tail[..i] + tail[i + 1..];
    OneFurther(q[0], tail, i);
    assert q[i + 1] == d;
  }

  lemma OneFurther(first: Did, tail: seq<Did>, i: nat)
    requires i < |tail|
    ensures [first] + (tail[..i] + tail[i + 1..]) == ([first] + tail)[..i + 1] + ([first] + tail)[i + 1 + 1..]
  {
  }

  /** All that taking a notification off its list and freeing it changes. */
  ghost predicate Gone(s: State, s': State, d: Did)
    requires d in s.deaths
  {
    && s'.deaths == s.deaths - {d} && s'.deadNodes == s.deadNodes && s'.nextId == s.nextId
    && OffList(s.procTodo, s'.procTodo, d) && OffList(s.delivered, s'.delivered, d)
    && s'.threadTodo.Keys == s.threadTodo.Keys && forall t :: t in s.threadTodo ==> OffList(s.threadTodo[t], s'.threadTodo[t], d)
  }

  lemma GoneIs(s: State, d: Did)
    requires ListsOk(s) && d in s.deaths
    ensures Gone(s, Free(Unlist(s, d), d), d)
  {
    hide *;
    UnlistedRest(s, d);
    UnlistedLists(s, d);
    forall t | t in s.threadTodo ensures OffList(s.threadTodo[t], Free(Unlist(s, d), d).threadTodo[t], d) { UnlistedThread(s, d, t); }
    MakeGone(s, d);
  }

  lemma UnlistedRest(s: State, d: Did)
    requires d in s.deaths
    ensures var s' := Free(Unlist(s, d), d);
            s'.deaths == s.deaths - {d} && s'.deadNodes == s.deadNodes && s'.nextId == s.nextId && s'.threadTodo.Keys == s.threadTodo.Keys
  {
    hide WithoutDid;
  }

  lemma UnlistedLists(s: State, d: Did)
    requires ListsOk(s) && d in s.deaths
    ensures var s' := Free(Unlist(s, d), d); OffList(s.procTodo, s'.procTodo, d) && OffList(s.delivered, s'.delivered, d)
  {
    hide WithoutDid, OffList, Distinct, ListsOk;
    ListedWhere(s, d);
    WithoutIs(s.procTodo, d);
    WithoutIs(s.delivered, d);
    NotOff(s.procTodo, d);
    NotOff(s.delivered, d);
  }

  lemma UnlistedThread(s: State, d: Did, t: Tid)
    requires ListsOk(s) && d in s.deaths && t in s.threadTodo
    ensures var s' := Free(Unlist(s, d), d); t in s'.threadTodo && OffList(s.threadTodo[t], s'.threadTodo[t], d)
  {
    hide WithoutDid, OffList, Distinct, ListsOk;
    ListedWhere(s, d);
    WithoutIs(s.threadTodo[t], d);
    NotOff(s.threadTodo[t], d);
  }

  lemma MakeGone(s: State, d: Did)
    requires d in s.deaths
    requires var s' := Free(Unlist(s, d), d);
             && s'.deaths == s.deaths - {d} && s'.deadNodes == s.deadNodes && s'.nextId == s.nextId
             && OffList(s.procTodo, s'.procTodo, d) && OffList(s.delivered, s'.delivered, d)
             && s'.threadTodo.Keys == s.threadTodo.Keys && forall t :: t in s.threadTodo ==> t in s'.threadTodo && OffList(s.threadTodo[t], s'.threadTodo[t], d)
    ensures Gone(s, Free(Unlist(s, d), d), d)
  {
    hide OffList, Unlist, WithoutDid;
  }

  lemma ListedWhere(s: State, d: Did)
    requires ListsOk(s) && d in s.deaths
    ensures Distinct(s.procTodo) && Distinct(s.delivered) && forall t :: t in s.threadTodo ==> Distinct(s.threadTodo[t])
    ensures (d in s.procTodo <==> s.deaths[d].place == OnProc) && (d in s.delivered <==> s.deaths[d].place == OnDelivered)
    ensures forall t :: t in s.threadTodo ==> (d in s.threadTodo[t] <==> s.deaths[d].place == OnThread(t))
  {
  }

  lemma NotOff(q: seq<Did>, d: Did)
    ensures d !in q ==> OffList(q, q, d)
  {
  }

  lemma AppendDistinct(q: seq<Did>, d: Did)
    requires Distinct(q) && d !in q
    ensures Distinct(q + [d])
  {
  }

  /** list_del: off whatever list it is on. */
  function Unlist(s: State, d: Did): State
    requires d in s.deaths
  {
    var s1 := s.(deaths := s.deaths[d := s.deaths[d].(place := Nowhere)]);
    match s.deaths[d].place
    case Nowhere => s1
    case OnProc => s1.(procTodo := WithoutDid(s.procTodo, d))
    case OnDelivered => s1.(delivered := WithoutDid(s.delivered, d))
    case OnThread(t) => if t in s.threadTodo then s1.(threadTodo := s.threadTodo[t := WithoutDid(s.threadTodo[t], d)]) else s1
  }

  /** list_add_tail; the item is on no list. */
  function Enlist(s: State, d: Did, place: Place): State
    requires d in s.deaths
  {
    var s1 := s.(deaths := s.deaths[d := s.deaths[d].(place := place)]);
    match place
    case Nowhere => s1
    case OnProc => s1.(procTodo := s.procTodo + [d])
    case OnDelivered => s1.(delivered := s.delivered + [d])
    case OnThread(t) => if t in s.threadTodo then s1.(threadTodo := s.threadTodo[t := s.threadTodo[t] + [d]]) else s1
  }

  lemma UnlistLists(s: State, d: Did)
    requires ListsOk(s) && d in s.deaths
    ensures ListsOk(Unlist(s, d))
  {
    match s.deaths[d].place
    case Nowhere =>
    case OnProc => UnlistProc(s, d);
    case OnDelivered => UnlistDelivered(s, d);
    case OnThread(t) => UnlistThread(s, d);
  }

  lemma UnlistProc(s: State, d: Did)
    requires ListsOk(s) && d in s.deaths && s.deaths[d].place == OnProc
    ensures ListsOk(Unlist(s, d))
  {
    hide Distinct, WithoutDid;
    WithoutDistinct(s.procTodo, d);
  }

  lemma UnlistDelivered(s: State, d: Did)
    requires ListsOk(s) && d in s.deaths && s.deaths[d].place == OnDelivered
    ensures ListsOk(Unlist(s, d))
  {
    hide Distinct, WithoutDid;
    WithoutDistinct(s.delivered, d);
  }

  lemma UnlistThread(s: State, d: Did)
    requires ListsOk(s) && d in s.deaths && s.deaths[d].place.OnThread?
    ensures ListsOk(Unlist(s, d))
  {
    hide Distinct, WithoutDid;
    WithoutDistinct(s.threadTodo[s.deaths[d].place.t], d);
  }

  lemma EnlistLists(s: State, d: Did, place: Place)
    requires ListsOk(s) && d in s.deaths && s.deaths[d].place == Nowhere
    requires place.OnThread? ==> place.t in s.threadTodo
    ensures ListsOk(Enlist(s, d, place))
  {
    hide Distinct;
    match place
    case Nowhere =>
    case OnProc => AppendDistinct(s.procTodo, d);
    case OnDelivered => AppendDistinct(s.delivered, d);
    case OnThread(t) => AppendDistinct(s.threadTodo[t], d);
  }

  /** Free of a notification that is on no list and that no reference points to. */
  function Free(s: State, d: Did): State {
    s.(deaths := s.deaths - {d})
  }

  ghost function FreeLog(g: Log, d: Did): Log {
    g.(freed := g.freed + {d})
  }

  lemma FreeLists(s: State, d: Did)
    requires ListsOk(s) && d in s.deaths && s.deaths[d].place == Nowhere
    ensures ListsOk(Free(s, d))
  {
  }

  // ---- Steps ----

  /** BC_REQUEST_DEATH_NOTIFICATION on a reference without one. */
  function Request(s: State, r: Rid, cookie: nat): State
    requires r in s.refs
  {
    var d := s.nextId;
    var late := s.refs[r].node in s.deadNodes;
    var s1 := s.(refs := s.refs[r := s.refs[r].(death := Some(d))], nextId := d + 1,
                 deaths := s.deaths[d := Death(cookie, if late then DeadBinder else Unset, Nowhere, Some(r))]);
    if late then Enlist(s1, d, OnProc) else s1
  }

  /** BC_CLEAR_DEATH_NOTIFICATION on a reference with one; `place` is the list a clear goes to. */
  function ClearDeath(s: State, r: Rid, place: Place): State
    requires r in s.refs && s.refs[r].death.Some? && s.refs[r].death.value in s.deaths
  {
    var d := s.refs[r].death.value;
    var e := s.deaths[d];
    var s1 := s.(refs := s.refs[r := s.refs[r].(death := None)],
                 deaths := s.deaths[d := e.(ref := None, kind := if e.place == Nowhere then Clear else DeadAndClear)]);
    if e.place == Nowhere then Enlist(s1, d, place) else s1
  }

  ghost function ClearLog(g: Log, d: Did): Log {
    if d in g.seen then g.(seen := g.seen[d := g.seen[d].(cleared := true)]) else g
  }

  /** A notification is read: a clear is reported and freed, a death is reported and kept as delivered. */
  function Report(s: State, d: Did): State
    requires d in s.deaths
  {
    var s1 := Unlist(s, d);
    if s.deaths[d].kind == Clear then Free(s1, d) else Enlist(s1, d, OnDelivered)
  }

  ghost function ReportLog(s: State, g: Log, d: Did): Log
    requires d in s.deaths
  {
    if d !in g.seen then g
    else if s.deaths[d].kind == Clear then FreeLog(g.(seen := g.seen[d := g.seen[d].(clearDone := g.seen[d].clearDone + 1)]), d)
    else g.(seen := g.seen[d := g.seen[d].(deadSent := g.seen[d].deadSent + 1)])
  }

  /** BC_DEAD_BINDER_DONE for a delivered notification. */
  function Done(s: State, d: Did, place: Place): State
    requires d in s.deaths
  {
    var s1 := Unlist(s, d);
    if s.deaths[d].kind == DeadAndClear then
      Enlist(s1.(deaths := s1.deaths[d := s1.deaths[d].(kind := Clear)]), d, place)
    else s1
  }

  ghost function DoneLog(g: Log, d: Did): Log {
    if d in g.seen then g.(seen := g.seen[d := g.seen[d].(doneReceived := g.seen[d].doneReceived + 1)]) else g
  }

  /** One reference of a dying node. */
  function Notify(s: State, d: Did): State
    requires d in s.deaths
  {
    Enlist(s.(deaths := s.deaths[d := s.deaths[d].(kind := DeadBinder)]), d, OnProc)
  }

  /** binder_cleanup_ref_olocked and binder_free_ref, as far as the notification goes. */
  function DropRef(s: State, r: Rid): State
    requires r in s.refs && (s.refs[r].death.Some? ==> s.refs[r].death.value in s.deaths)
  {
    var s1 := s.(refs := s.refs - {r});
    match s.refs[r].death
    case None => s1
    case Some(d) => Free(Unlist(s1, d), d)
  }

  // ---- Keeping the invariant ----

  lemma DeathAt(s: State, g: Log, d: Did)
    requires Inv(s, g) && d in s.deaths
    ensures DeathOk(s, d) && SeenOk(s, g, d)
  {
  }

  lemma RefAt(s: State, g: Log, r: Rid)
    requires Inv(s, g) && r in s.refs && s.refs[r].death.Some?
    ensures s.refs[r].death.value in s.deaths && s.deaths[s.refs[r].death.value].ref == Some(r)
  {
  }

  lemma Parts(s: State, g: Log)
    requires Inv(s, g)
    ensures RefsOk(s) && Known(s, g) && ListsOk(s)
  {
  }

  lemma FreedAt(s: State, g: Log, d: Did)
    requires Inv(s, g)
    ensures FreedOk(s, g, d)
  {
  }

  lemma MakeInv(s: State, g: Log)
    requires RefsOk(s) && Known(s, g) && ListsOk(s)
    requires forall d :: d in s.deaths ==> DeathOk(s, d) && SeenOk(s, g, d)
    requires forall d :: FreedOk(s, g, d)
    ensures Inv(s, g)
  {
  }

  lemma FreshDid(s: State, g: Log)
    requires Inv(s, g)
    ensures s.nextId !in s.deaths && s.nextId !in g.freed
  {
    FreedAt(s, g, s.nextId);
    if s.nextId in s.deaths { DeathAt(s, g, s.nextId); }
  }

  lemma RequestParts(s: State, g: Log, r: Rid, cookie: nat, f: Did)
    requires Inv(s, g) && r in s.refs && s.refs[r].death == None
    ensures var s', g' := Request(s, r, cookie), g.(seen := g.seen[s.nextId := Seen(0, 0, false, 0)]);
            (f in s'.deaths ==> DeathOk(s', f) && SeenOk(s', g', f)) && FreedOk(s', g', f)
  {
    hide Inv, ListsOk;
    FreshDid(s, g);
    FreedAt(s, g, f);
    if f in s.deaths { DeathAt(s, g, f); }
  }

  lemma RequestInv(s: State, g: Log, r: Rid, cookie: nat)
    requires Inv(s, g) && r in s.refs && s.refs[r].death == None
    ensures Inv(Request(s, r, cookie), g.(seen := g.seen[s.nextId := Seen(0, 0, false, 0)]))
  {
    hide Inv, ListsOk, DeathOk, SeenOk, FreedOk;
    Parts(s, g);
    FreshDid(s, g);
    RequestLists(s, r, cookie);
    var s', g' := Request(s, r, cookie), g.(seen := g.seen[s.nextId := Seen(0, 0, false, 0)]);
    forall f ensures (f in s'.deaths ==> DeathOk(s', f) && SeenOk(s', g', f)) && FreedOk(s', g', f) { RequestParts(s, g, r, cookie, f); }
    MakeInv(s', g');
  }

  lemma RequestLists(s: State, r: Rid, cookie: nat)
    requires ListsOk(s) && r in s.refs && s.nextId !in s.deaths
    ensures ListsOk(Request(s, r, cookie))
  {
    var d := s.nextId;
    var late := s.refs[r].node in s.deadNodes;
    var s1 := s.(refs := s.refs[r := s.refs[r].(death := Some(d))], nextId := d + 1,
                 deaths := s.deaths[d := Death(cookie, if late then DeadBinder else Unset, Nowhere, Some(r))]);
    NewLists(s, s1, d);
    if late { EnlistLists(s1, d, OnProc); }
  }

  lemma NewLists(s: State, s1: State, d: Did)
    requires ListsOk(s) && d !in s.deaths && d in s1.deaths && s1.deaths == s.deaths[d := s1.deaths[d]] && s1.deaths[d].place == Nowhere
    requires s1.procTodo == s.procTodo && s1.delivered == s.delivered && s1.threadTodo == s.threadTodo
    ensures ListsOk(s1)
  {
  }

  /** A change of everything but the place leaves the lists right. */
  lemma SamePlaceLists(s: State, s1: State, d: Did)
    requires ListsOk(s) && d in s.deaths && d in s1.deaths && s1.deaths == s.deaths[d := s1.deaths[d]] && s1.deaths[d].place == s.deaths[d].place
    requires s1.procTodo == s.procTodo && s1.delivered == s.delivered && s1.threadTodo == s.threadTodo
    ensures ListsOk(s1)
  {
  }

  ghost predicate ClearPlace(s: State, place: Place) {
    place == OnProc || (place.OnThread? && place.t in s.threadTodo)
  }

  lemma ClearParts(s: State, g: Log, r: Rid, place: Place, f: Did)
    requires Inv(s, g) && r in s.refs && s.refs[r].death.Some? && ClearPlace(s, place) && s.refs[r].death.value in s.deaths
    ensures var s', g' := ClearDeath(s, r, place), ClearLog(g, s.refs[r].death.value);
            (f in s'.deaths ==> DeathOk(s', f) && SeenOk(s', g', f)) && FreedOk(s', g', f)
  {
    hide Inv, ListsOk;
    RefAt(s, g, r);
    DeathAt(s, g, s.refs[r].death.value);
    FreedAt(s, g, f);
    if f in s.deaths { DeathAt(s, g, f); }
  }

  /** The BUG_ON of the clear: an attached notification that is listed has type DEAD_BINDER. */
  lemma AttachedListed(s: State, g: Log, r: Rid)
    requires Inv(s, g) && r in s.refs && s.refs[r].death.Some?
    ensures s.refs[r].death.value in s.deaths
    ensures s.deaths[s.refs[r].death.value].place != Nowhere ==>
              s.deaths[s.refs[r].death.value].kind == DeadBinder && s.refs[r].node in s.deadNodes
  {
    RefAt(s, g, r);
    DeathAt(s, g, s.refs[r].death.value);
  }

  lemma ClearInv(s: State, g: Log, r: Rid, place: Place)
    requires Inv(s, g) && r in s.refs && s.refs[r].death.Some? && ClearPlace(s, place)
    ensures s.refs[r].death.value in s.deaths
    ensures Inv(ClearDeath(s, r, place), ClearLog(g, s.refs[r].death.value))
  {
    hide Inv, ListsOk, DeathOk, SeenOk, FreedOk;
    Parts(s, g);
    RefAt(s, g, r);
    var d := s.refs[r].death.value;
    var s', g', e := ClearDeath(s, r, place), ClearLog(g, d), s.deaths[d];
    var s1 := s.(refs := s.refs[r := s.refs[r].(death := None)],
                 deaths := s.deaths[d := e.(ref := None, kind := if e.place == Nowhere then Clear else DeadAndClear)]);
    SamePlaceLists(s, s1, d);
    if e.place == Nowhere { EnlistLists(s1, d, place); }
    forall f ensures (f in s'.deaths ==> DeathOk(s', f) && SeenOk(s', g', f)) && FreedOk(s', g', f) { ClearParts(s, g, r, place, f); }
    MakeInv(s', g');
  }

  lemma ReportParts(s: State, g: Log, d: Did, f: Did)
    requires Inv(s, g) && d in s.deaths && (s.deaths[d].place == OnProc || s.deaths[d].place.OnThread?)
    ensures var s', g' := Report(s, d), ReportLog(s, g, d);
            (f in s'.deaths ==> DeathOk(s', f) && SeenOk(s', g', f)) && FreedOk(s', g', f)
  {
    hide Inv, ListsOk, WithoutDid;
    DeathAt(s, g, d);
    FreedAt(s, g, f);
    if f in s.deaths { DeathAt(s, g, f); }
  }

  lemma ReportInv(s: State, g: Log, d: Did)
    requires Inv(s, g) && d in s.deaths && (s.deaths[d].place == OnProc || s.deaths[d].place.OnThread?)
    ensures Inv(Report(s, d), ReportLog(s, g, d))
  {
    hide Inv, ListsOk, FreedOk, WithoutDid;
    Parts(s, g);
    DeathAt(s, g, d);
    UnlistLists(s, d);
    var s', g' := Report(s, d), ReportLog(s, g, d);
    if s.deaths[d].kind == Clear { FreeLists(Unlist(s, d), d); } else { EnlistLists(Unlist(s, d), d, OnDelivered); }
    forall f ensures (f in s'.deaths ==> DeathOk(s', f) && SeenOk(s', g', f)) && FreedOk(s', g', f) { ReportParts(s, g, d, f); }
    ReportGlobals(s, g, d);
    hide *;
    MakeInv(s', g');
  }

  lemma ReportGlobals(s: State, g: Log, d: Did)
    requires Inv(s, g) && d in s.deaths && (s.deaths[d].place == OnProc || s.deaths[d].place.OnThread?)
    ensures RefsOk(Report(s, d)) && Known(Report(s, d), ReportLog(s, g, d))
  {
    hide Inv, ListsOk, FreedOk, WithoutDid;
    Parts(s, g);
    DeathAt(s, g, d);
  }

  lemma DoneParts(s: State, g: Log, d: Did, place: Place, f: Did)
    requires Inv(s, g) && d in s.deaths && s.deaths[d].place == OnDelivered && ClearPlace(s, place)
    ensures var s', g' := Done(s, d, place), DoneLog(g, d);
            (f in s'.deaths ==> DeathOk(s', f) && SeenOk(s', g', f)) && FreedOk(s', g', f)
  {
    hide Inv, ListsOk, WithoutDid;
    DeathAt(s, g, d);
    FreedAt(s, g, f);
    if f in s.deaths { DeathAt(s, g, f); }
  }

  lemma DoneLists(s: State, d: Did, place: Place)
    requires ListsOk(s) && d in s.deaths && s.deaths[d].place == OnDelivered && ClearPlace(s, place)
    ensures ListsOk(Done(s, d, place))
  {
    hide ListsOk, WithoutDid;
    UnlistLists(s, d);
    var s1 := Unlist(s, d);
    if s.deaths[d].kind == DeadAndClear {
      var s2 := s1.(deaths := s1.deaths[d := s1.deaths[d].(kind := Clear)]);
      SamePlaceLists(s1, s2, d);
      EnlistLists(s2, d, place);
    }
  }

  lemma DoneGlobals(s: State, g: Log, d: Did, place: Place)
    requires Inv(s, g) && d in s.deaths && s.deaths[d].place == OnDelivered && ClearPlace(s, place)
    ensures RefsOk(Done(s, d, place)) && Known(Done(s, d, place), DoneLog(g, d)) && ListsOk(Done(s, d, place))
  {
    hide Inv, ListsOk, WithoutDid;
    Parts(s, g);
    DoneLists(s, d, place);
    DeathAt(s, g, d);
    hide DeathOk, SeenOk;
  }

  lemma DoneInv(s: State, g: Log, d: Did, place: Place)
    requires Inv(s, g) && d in s.deaths && s.deaths[d].place == OnDelivered && ClearPlace(s, place)
    ensures Inv(Done(s, d, place), DoneLog(g, d))
  {
    hide *;
    var s', g' := Done(s, d, place), DoneLog(g, d);
    forall f ensures (f in s'.deaths ==> DeathOk(s', f) && SeenOk(s', g', f)) && FreedOk(s', g', f) { DoneParts(s, g, d, place, f); }
    DoneGlobals(s, g, d, place);
    MakeInv(s', g');
  }

  lemma DropParts(s: State, g: Log, r: Rid, f: Did)
    requires Inv(s, g) && r in s.refs && (s.refs[r].death.Some? ==> s.refs[r].death.value in s.deaths)
    ensures var s', g' := DropRef(s, r), if s.refs[r].death.Some? then FreeLog(g, s.refs[r].death.value) else g;
            (f in s'.deaths ==> DeathOk(s', f) && SeenOk(s', g', f)) && FreedOk(s', g', f)
  {
    hide Inv, ListsOk, WithoutDid;
    if s.refs[r].death.Some? {
      RefAt(s, g, r);
      DeathAt(s, g, s.refs[r].death.value);
    }
    FreedAt(s, g, f);
    if f in s.deaths { DeathAt(s, g, f); }
  }

  lemma DropGlobals(s: State, g: Log, r: Rid)
    requires Inv(s, g) && r in s.refs && (s.refs[r].death.Some? ==> s.refs[r].death.value in s.deaths)
    ensures var s', g' := DropRef(s, r), if s.refs[r].death.Some? then FreeLog(g, s.refs[r].death.value) else g;
            RefsOk(s') && Known(s', g') && ListsOk(s')
  {
    hide Inv, ListsOk, WithoutDid, SeenOk, FreedOk;
    Parts(s, g);
    SameLists(s, s.(refs := s.refs - {r}));
    if s.refs[r].death.Some? {
      RefAt(s, g, r);
      var d := s.refs[r].death.value;
      DeathAt(s, g, d);
      var s1 := s.(refs := s.refs - {r});
      UnlistLists(s1, d);
      FreeLists(Unlist(s1, d), d);
    }
  }

  lemma SameLists(s: State, s': State)
    requires ListsOk(s) && s' == s.(refs := s'.refs, deadNodes := s'.deadNodes)
    ensures ListsOk(s')
  {
  }

  /** A reference that goes takes its notification along, off whatever list it is on. */
  lemma DropRefInv(s: State, g: Log, r: Rid)
    requires Inv(s, g) && r in s.refs
    ensures s.refs[r].death.Some? ==> s.refs[r].death.value in s.deaths
    ensures Inv(DropRef(s, r), if s.refs[r].death.Some? then FreeLog(g, s.refs[r].death.value) else g)
  {
    hide *;
    if s.refs[r].death.Some? { RefAt(s, g, r); }
    var s', g' := DropRef(s, r), if s.refs[r].death.Some? then FreeLog(g, s.refs[r].death.value) else g;
    forall f ensures (f in s'.deaths ==> DeathOk(s', f) && SeenOk(s', g', f)) && FreedOk(s', g', f) { DropParts(s, g, r, f); }
    DropGlobals(s, g, r);
    MakeInv(s', g');
  }

  // ---- A node dies ----

  /** The reference to node n, if the process has one. */
  function RefTo(s: State, n: Nid): (r: Option<Rid>)
    requires RefsOk(s)
    ensures r.Some? ==> r.value in s.refs && s.refs[r.value].node == n
    ensures r == None ==> forall q :: q in s.refs ==> s.refs[q].node != n
  {
    if exists q :: q in s.refs && s.refs[q].node == n then
      var q :| q in s.refs && s.refs[q].node == n;
      Some(q)
    else None
  }

  /** binder_node_release, seen from this process. */
  function NodeDies(s: State, n: Nid): State
    requires RefsOk(s)
  {
    var s1 := s.(deadNodes := s.deadNodes + {n});
    match RefTo(s, n)
    case None => s1
    case Some(r) => if s.refs[r].death == None || s.refs[r].death.value !in s.deaths then s1 else Notify(s1, s.refs[r].death.value)
  }

  lemma NodeDiesParts(s: State, g: Log, n: Nid, f: Did)
    requires Inv(s, g) && RefsOk(s) && n !in s.deadNodes
    ensures var s' := NodeDies(s, n); (f in s'.deaths ==> DeathOk(s', f) && SeenOk(s', g, f)) && FreedOk(s', g, f)
  {
    hide Inv, ListsOk;
    if RefTo(s, n).Some? && s.refs[RefTo(s, n).value].death.Some? {
      RefAt(s, g, RefTo(s, n).value);
      DeathAt(s, g, s.refs[RefTo(s, n).value].death.value);
    }
    FreedAt(s, g, f);
    if f in s.deaths { DeathAt(s, g, f); }
  }

  /** The BUG_ON of the node's release: nothing attached is listed while the node lives. */
  lemma UnlistedWhileAlive(s: State, g: Log, r: Rid)
    requires Inv(s, g) && r in s.refs && s.refs[r].death.Some? && s.refs[r].node !in s.deadNodes
    ensures s.refs[r].death.value in s.deaths && s.deaths[s.refs[r].death.value].place == Nowhere
  {
    RefAt(s, g, r);
    DeathAt(s, g, s.refs[r].death.value);
  }

  lemma NodeDiesGlobals(s: State, g: Log, n: Nid)
    requires Inv(s, g) && RefsOk(s) && n !in s.deadNodes
    ensures RefsOk(NodeDies(s, n)) && Known(NodeDies(s, n), g) && ListsOk(NodeDies(s, n))
  {
    hide Inv, ListsOk, SeenOk, FreedOk;
    Parts(s, g);
    var s1 := s.(deadNodes := s.deadNodes + {n});
    SameLists(s, s1);
    if RefTo(s, n).Some? && s.refs[RefTo(s, n).value].death.Some? {
      var d := s.refs[RefTo(s, n).value].death.value;
      UnlistedWhileAlive(s, g, RefTo(s, n).value);
      var s2 := s1.(deaths := s1.deaths[d := s1.deaths[d].(kind := DeadBinder)]);
      SamePlaceLists(s1, s2, d);
      EnlistLists(s2, d, OnProc);
    }
  }

  lemma NodeDiesInv(s: State, g: Log, n: Nid)
    requires Inv(s, g) && RefsOk(s) && n !in s.deadNodes
    ensures Inv(NodeDies(s, n), g)
  {
    hide *;
    var s' := NodeDies(s, n);
    forall f ensures (f in s'.deaths ==> DeathOk(s', f) && SeenOk(s', g, f)) && FreedOk(s', g, f) { NodeDiesParts(s, g, n, f); }
    NodeDiesGlobals(s, g, n);
    MakeInv(s', g);
  }

  // ---- Undelivered items of a dying thread or process ----

  lemma ScrapParts(s: State, g: Log, d: Did, f: Did)
    requires Inv(s, g) && d in s.deaths && s.deaths[d].ref == None
    ensures var s', g' := Free(Unlist(s, d), d), FreeLog(g, d);
            (f in s'.deaths ==> DeathOk(s', f) && SeenOk(s', g', f)) && FreedOk(s', g', f)
  {
    hide Inv, ListsOk, WithoutDid;
    DeathAt(s, g, d);
    FreedAt(s, g, f);
    if f in s.deaths { DeathAt(s, g, f); }
  }

  lemma ScrapGlobals(s: State, g: Log, d: Did)
    requires Inv(s, g) && d in s.deaths && s.deaths[d].ref == None
    ensures var s', g' := Free(Unlist(s, d), d), FreeLog(g, d);
            RefsOk(s') && Known(s', g') && ListsOk(s')
  {
    hide Inv, ListsOk, WithoutDid, SeenOk, FreedOk, DeathOk;
    Parts(s, g);
    UnlistLists(s, d);
    FreeLists(Unlist(s, d), d);
    FreeGlobals(s, g, d);
  }

  lemma FreeGlobals(s: State, g: Log, d: Did)
    requires RefsOk(s) && Known(s, g) && d in s.deaths && s.deaths[d].ref == None
    ensures RefsOk(Free(Unlist(s, d), d)) && Known(Free(Unlist(s, d), d), FreeLog(g, d))
  {
    FreedDeaths(s, d);
    hide Unlist, Free, WithoutDid;
  }

  lemma FreedDeaths(s: State, d: Did)
    requires d in s.deaths
    ensures var s' := Free(Unlist(s, d), d); s'.deaths == s.deaths - {d} && s'.refs == s.refs
  {
    hide WithoutDid;
  }

  lemma ScrapInv(s: State, g: Log, d: Did)
    requires Inv(s, g) && d in s.deaths && s.deaths[d].ref == None
    ensures Inv(Free(Unlist(s, d), d), FreeLog(g, d))
  {
    hide *;
    var s', g' := Free(Unlist(s, d), d), FreeLog(g, d);
    forall f ensures (f in s'.deaths ==> DeathOk(s', f) && SeenOk(s', g', f)) && FreedOk(s', g', f) { ScrapParts(s, g, d, f); }
    ScrapGlobals(s, g, d);
    MakeInv(s', g');
  }

  lemma ListedOn(s: State, g: Log, d: Did)
    requires Inv(s, g)
    ensures d in s.procTodo ==> d in s.deaths && s.deaths[d].place == OnProc
    ensures d in s.delivered ==> d in s.deaths && s.deaths[d].place == OnDelivered
    ensures forall t :: t in s.threadTodo && d in s.threadTodo[t] ==> d in s.deaths && s.deaths[d].place == OnThread(t)
  {
  }

  /** Only cleared notifications ever sit on a thread's list. */
  lemma OnThreadIsClear(s: State, g: Log, d: Did)
    requires Inv(s, g) && d in s.deaths && s.deaths[d].place.OnThread?
    ensures s.deaths[d].kind == Clear && s.deaths[d].ref == None
  {
    DeathAt(s, g, d);
  }

  /** Once the references are gone every notification left is detached and marked for clearing. */
  lemma DetachedKinds(s: State, g: Log, d: Did)
    requires Inv(s, g) && d in s.deaths && s.refs == map[]
    ensures s.deaths[d].ref == None && s.deaths[d].kind in {DeadAndClear, Clear}
  {
    DeathAt(s, g, d);
  }

  class Notifications {
    var st: State
    var bug: bool        // a BUG_ON, or an item that teardown does not know how to free
    ghost var g: Log

    ghost predicate Valid()
      reads this
    {
      Inv(st, g) && !bug
    }

    constructor ()
      ensures Valid() && st == State(map[], map[], [], [], map[], {}, 0)
    {
      st, bug, g := State(map[], map[], [], [], map[], {}, 0), false, Log(map[], {});
    }

    method AddRef(r: Rid, n: Nid)
      requires Valid() && r !in st.refs && forall q :: q in st.refs ==> st.refs[q].node != n
      modifies this
      ensures Valid() && st == old(st).(refs := old(st).refs[r := Ref(n, None)])
    {
      hide ListsOk;
      ghost var s0 := st;
      st := st.(refs := st.refs[r := Ref(n, None)]);
      SameLists(s0, st);
      forall f ensures (f in st.deaths ==> DeathOk(st, f) && SeenOk(st, g, f)) && FreedOk(st, g, f) {
        FreedAt(s0, g, f);
        if f in s0.deaths { DeathAt(s0, g, f); }
      }
    }

    method AddThread(t: Tid)
      requires Valid() && t !in st.threadTodo
      modifies this
      ensures Valid() && st == old(st).(threadTodo := old(st).threadTodo[t := []])
    {
      ghost var s0 := st;
      st := st.(threadTodo := st.threadTodo[t := []]);
      NewThreadLists(s0, t);
      hide ListsOk;
      forall f ensures (f in st.deaths ==> DeathOk(st, f) && SeenOk(st, g, f)) && FreedOk(st, g, f) {
        FreedAt(s0, g, f);
        if f in s0.deaths { DeathAt(s0, g, f); }
      }
    }

    /** BC_REQUEST_DEATH_NOTIFICATION */
    method RequestDeath(r: Rid, cookie: nat, memOk: bool) returns (ok: bool)
      requires Valid()
      modifies this
      ensures Valid() && (ok <==> memOk && r in old(st).refs && old(st).refs[r].death == None)
      ensures ok ==> st == Request(old(st), r, cookie)
      // A new notification with that cookie hangs on the reference, and is queued at once if the node is dead already.
      ensures ok ==>
                var d, late := old(st).nextId, old(st).refs[r].node in old(st).deadNodes;
                && d !in old(st).deaths
                && st == old(st).(refs := old(st).refs[r := Ref(old(st).refs[r].node, Some(d))], nextId := d + 1,
                                  deaths := old(st).deaths[d := if late then Death(cookie, DeadBinder, OnProc, Some(r)) else Death(cookie, Unset, Nowhere, Some(r))],
                                  procTodo := if late then old(st).procTodo + [d] else old(st).procTodo)
      ensures !ok ==> st == old(st)
    {
      hide Inv, Request;
      if !memOk || r !in st.refs || st.refs[r].death.Some? { return false; }
      RequestInv(st, g, r, cookie);
      RequestIs(st, g, r, cookie);
      g := g.(seen := g.seen[st.nextId := Seen(0, 0, false, 0)]);
      st := Request(st, r, cookie);
      return true;
    }

    /** BC_CLEAR_DEATH_NOTIFICATION; `looper` is the calling thread if it reads work itself. */
    method ClearRequest(r: Rid, cookie: nat, looper: Option<Tid>) returns (ok: bool)
      requires Valid() && (looper.Some? ==> looper.value in st.threadTodo)
      modifies this
      ensures Valid()
      ensures ok <==> r in old(st).refs && old(st).refs[r].death.Some? && old(st).refs[r].death.value in old(st).deaths
                      && old(st).deaths[old(st).refs[r].death.value].cookie == cookie
      ensures ok ==> st == ClearDeath(old(st), r, if looper.Some? then OnThread(looper.value) else OnProc)
      // It hangs on no reference any more; if it was on no list it is queued as a clear, otherwise it stays where it is.
      ensures ok ==>
                var d := old(st).refs[r].death.value; var e := old(st).deaths[d]; var queue := e.place == Nowhere;
                && st.refs == old(st).refs[r := Ref(old(st).refs[r].node, None)] && st.delivered == old(st).delivered
                && st.deadNodes == old(st).deadNodes && st.nextId == old(st).nextId
                && st.deaths == old(st).deaths[d := if !queue then Death(cookie, DeadAndClear, e.place, None)
                                                    else Death(cookie, Clear, if looper.Some? then OnThread(looper.value) else OnProc, None)]
                && st.procTodo == (if queue && looper == None then old(st).procTodo + [d] else old(st).procTodo)
                && st.threadTodo == if queue && looper.Some? then old(st).threadTodo[looper.value := old(st).threadTodo[looper.value] + [d]]
                                    else old(st).threadTodo
      ensures !ok ==> st == old(st)
    {
      hide Inv, ClearDeath;
      if r !in st.refs || st.refs[r].death == None { return false; }
      AttachedListed(st, g, r);
      var d := st.refs[r].death.value;
      var place := if looper.Some? then OnThread(looper.value) else OnProc;
      if st.deaths[d].cookie != cookie { return false; }
      bug := bug || (st.deaths[d].place != Nowhere && st.deaths[d].kind != DeadBinder);
      ClearInv(st, g, r, place);
      ClearIs(st, r, place);
      st, g := ClearDeath(st, r, place), ClearLog(g, d);
      return true;
    }

    /** The death of a node elsewhere. */
    method NodeDeath(n: Nid)
      requires Valid() && RefsOk(st) && n !in st.deadNodes
      modifies this
      ensures Valid() && st == old(NodeDies(st, n))
      // The notification attached to the reference to n, if there is one, is the last on the process's list; nothing else changes.
      ensures st.deadNodes == old(st).deadNodes + {n} && st.refs == old(st).refs && st.nextId == old(st).nextId
      ensures st.delivered == old(st).delivered && st.threadTodo == old(st).threadTodo
      ensures forall r :: r in old(st).refs && old(st).refs[r].node == n && old(st).refs[r].death.Some? ==>
                var d := old(st).refs[r].death.value;
                && d in old(st).deaths && d !in old(st).procTodo && st.procTodo == old(st).procTodo + [d]
                && st.deaths == old(st).deaths[d := old(st).deaths[d].(kind := DeadBinder, place := OnProc)]
      ensures (forall r :: r in old(st).refs && old(st).refs[r].node == n ==> old(st).refs[r].death == None) ==>
                st.procTodo == old(st).procTodo && st.deaths == old(st).deaths
    {
      hide Inv, NodeDies;
      var r := RefTo(st, n);
      if r.Some? && st.refs[r.value].death.Some? {
        UnlistedWhileAlive(st, g, r.value);
        bug := bug || st.deaths[st.refs[r.value].death.value].place != Nowhere;
      }
      NodeDiesInv(st, g, n);
      NodeDiesIs(st, g, n);
      st := NodeDies(st, n);
    }

    /** A thread reads the next notification on its own list or the process's. */
    method Read(thread: Option<Tid>) returns (d: Did)
      requires Valid()
      requires match thread case Some(t) => t in st.threadTodo && st.threadTodo[t] != [] case None => st.procTodo != []
      modifies this
      ensures Valid() && d in old(st).deaths && st == Report(old(st), d) && g == ReportLog(old(st), old(g), d)
      ensures d == match thread case Some(t) => old(st).threadTodo[t][0] case None => old(st).procTodo[0]
      // The head leaves its list; a clear is freed, a death goes to the end of the delivered list.
      ensures var clear := old(st).deaths[d].kind == Clear;
              st == old(st).(deaths := if clear then old(st).deaths - {d} else old(st).deaths[d := old(st).deaths[d].(place := OnDelivered)],
                             delivered := if clear then old(st).delivered else old(st).delivered + [d],
                             procTodo := if thread == None then old(st).procTodo[1..] else old(st).procTodo,
                             threadTodo := match thread
                                           case None => old(st).threadTodo
                                           case Some(t) => old(st).threadTodo[t := old(st).threadTodo[t][1..]])
    {
      hide Inv, Report;
      d := match thread case Some(t) => st.threadTodo[t][0] case None => st.procTodo[0];
      ListedOn(st, g, d);
      ReportInv(st, g, d);
      Parts(st, g);
      ReportIs(st, thread);
      g := ReportLog(st, g, d);
      st := Report(st, d);
    }

    /** BC_DEAD_BINDER_DONE: the first delivered notification with that cookie. */
    method DeadBinderDone(cookie: nat, looper: Option<Tid>) returns (found: Option<Did>)
      requires Valid() && (looper.Some? ==> looper.value in st.threadTodo)
      modifies this
      ensures Valid()
      ensures found == None <==> forall d :: d in old(st).delivered ==> d in old(st).deaths && old(st).deaths[d].cookie != cookie
      ensures found == None ==> st == old(st)
      ensures found.Some? ==> found.value in old(st).deaths && old(st).deaths[found.value].cookie == cookie
                              && st == Done(old(st), found.value, if looper.Some? then OnThread(looper.value) else OnProc)
      // It leaves the delivered list; if it is to be cleared it is queued as a clear.
      ensures found.Some? ==>
                var d := found.value; var e := old(st).deaths[d]; var queue := e.kind == DeadAndClear;
                && OffList(old(st).delivered, st.delivered, d)
                && st.refs == old(st).refs && st.deadNodes == old(st).deadNodes && st.nextId == old(st).nextId
                && st.deaths == old(st).deaths[d := if !queue then e.(place := Nowhere)
                                                    else e.(kind := Clear, place := if looper.Some? then OnThread(looper.value) else OnProc)]
                && st.procTodo == (if queue && looper == None then old(st).procTodo + [d] else old(st).procTodo)
                && st.threadTodo == if queue && looper.Some? then old(st).threadTodo[looper.value := old(st).threadTodo[looper.value] + [d]]
                                    else old(st).threadTodo
      // The first with that cookie is meant.
      ensures found.Some? ==> exists i :: 0 <= i < |old(st).delivered| && old(st).delivered[i] == found.value
                                          && forall j :: 0 <= j < i ==> old(st).delivered[j] in old(st).deaths && old(st).deaths[old(st).delivered[j]].cookie != cookie
    {
      hide Inv, Done, OffList;
      var i := 0;
      while i < |st.delivered|
        invariant 0 <= i <= |st.delivered| && Valid() && st == old(st) && g == old(g)
        invariant forall j :: 0 <= j < i ==> st.delivered[j] in st.deaths && st.deaths[st.delivered[j]].cookie != cookie
      {
        var d := st.delivered[i];
        ListedOn(st, g, d);
        if st.deaths[d].cookie == cookie {
          var place := if looper.Some? then OnThread(looper.value) else OnProc;
          DoneInv(st, g, d, place);
          Parts(st, g);
          DoneIs(st, d, place);
          assert old(st).delivered[i] == d;
          st, g := Done(st, d, place), DoneLog(g, d);
          return Some(d);
        }
        i := i + 1;
      }
      return None;
    }

    /** A reference goes, and its notification with it. */
    method DropReference(r: Rid)
      requires Valid() && r in st.refs
      modifies this
      ensures Valid() && st == DropRef(old(st), r) && st.refs == old(st).refs - {r} && st.threadTodo.Keys == old(st).threadTodo.Keys
      ensures forall t :: t in st.threadTodo && old(st).threadTodo[t] == [] ==> st.threadTodo[t] == []
      ensures old(g).freed <= g.freed
      ensures match old(st).refs[r].death
              case None => st == old(st).(refs := old(st).refs - {r})
              case Some(d) => d in old(st).deaths && Gone(old(st), st, d)
    {
      hide Inv, Gone;
      DropRefInv(st, g, r);
      Parts(st, g);
      if st.refs[r].death.Some? { DroppedIs(st, r, st.refs[r].death.value); }
      g := if st.refs[r].death.Some? then FreeLog(g, st.refs[r].death.value) else g;
      st := DropRef(st, r);
    }

    /** Deaths of nodes elsewhere, in any number: nothing but the process's list gets longer, and only through a
        reference. */
    method Elsewhere(dying: seq<Nid>)
      requires Valid()
      modifies this
      ensures Valid() && st.refs == old(st).refs && st.threadTodo == old(st).threadTodo && st.delivered == old(st).delivered
      ensures st.refs == map[] ==> st.procTodo == old(st).procTodo
      ensures st.deadNodes == old(st).deadNodes + set n | n in dying
    {
      hide Inv, NodeDies;
      for i := 0 to |dying|
        invariant Valid() && st.refs == old(st).refs && st.threadTodo == old(st).threadTodo && st.delivered == old(st).delivered
        invariant st.refs == map[] ==> st.procTodo == old(st).procTodo
        invariant st.deadNodes == old(st).deadNodes + set n | n in dying[..i]
      {
        assert dying[..i + 1] == dying[..i] + [dying[i]];
        if dying[i] !in st.deadNodes {
          Parts(st, g);
          DeathTouches(st, g, dying[i]);
          NodeDeath(dying[i]);
        }
      }
      assert dying[..|dying|] == dying;
    }

    /** binder_release_work on one item, which is on a thread's list or was left when the references were gone: it is
        of a kind that is freed. */
    method Scrap(d: Did)
      requires Valid() && d in st.deaths && (st.refs == map[] || st.deaths[d].place.OnThread?)
      modifies this
      ensures Valid() && st == Free(Unlist(old(st), d), d) && g.freed == old(g).freed + {d}
      ensures st.refs == old(st).refs && Gone(old(st), st, d)
    {
      hide Inv, Gone;
      Parts(st, g);
      GoneIs(st, d);
      if st.refs == map[] { DetachedKinds(st, g, d); } else { OnThreadIsClear(st, g, d); }
      bug := bug || st.deaths[d].kind !in {DeadAndClear, Clear};
      ScrapInv(st, g, d);
      st, g := Free(Unlist(st, d), d), FreeLog(g, d);
    }

    /** The list of a dying thread: everything on it is freed. */
    method ThreadExit(t: Tid)
      requires Valid() && t in st.threadTodo
      modifies this
      ensures Valid() && t in st.threadTodo && st.threadTodo[t] == [] && st.refs == old(st).refs
      ensures st.threadTodo.Keys == old(st).threadTodo.Keys && forall u :: u in st.threadTodo && u != t ==> st.threadTodo[u] == old(st).threadTodo[u]
      ensures st.procTodo == old(st).procTodo && st.delivered == old(st).delivered
      ensures forall d :: d in st.deaths <==> d in old(st).deaths && d !in old(st).threadTodo[t]
      ensures forall d :: d in st.deaths ==> st.deaths[d] == old(st).deaths[d]
    {
      hide Inv, WithoutDid;
      while st.threadTodo[t] != []
        invariant Valid() && t in st.threadTodo && st.refs == old(st).refs
        invariant st.threadTodo.Keys == old(st).threadTodo.Keys && forall u :: u in st.threadTodo && u != t ==> st.threadTodo[u] == old(st).threadTodo[u]
        invariant st.procTodo == old(st).procTodo && st.delivered == old(st).delivered
        invariant forall d :: d in st.deaths <==> d in old(st).deaths && (d in old(st).threadTodo[t] ==> d in st.threadTodo[t])
        invariant forall d :: d in st.deaths ==> st.deaths[d] == old(st).deaths[d] || d in st.threadTodo[t]
        invariant forall d :: d in st.threadTodo[t] ==> d in old(st).threadTodo[t]
        decreases |st.threadTodo[t]|
      {
        var d := st.threadTodo[t][0];
        ListedOn(st, g, d);
        WithoutShorter(st.threadTodo[t], d);
        Scrap(d);
      }
    }

    /** The thread loop of binder_deferred_release. In front of every step nodes elsewhere may die, `dying` says which. */
    method ReleaseThreads(dying: nat -> seq<Nid>, k: nat) returns (next: nat)
      requires Valid()
      modifies this
      ensures Valid() && ThreadsIdle(st)
    {
      hide Inv;
      next := k;
      var ts := st.threadTodo.Keys;
      while ts != {}
        invariant Valid() && ts <= st.threadTodo.Keys
        invariant forall t :: t in st.threadTodo && t !in ts ==> st.threadTodo[t] == []
        decreases |ts|
      {
        Elsewhere(dying(next));
        next := next + 1;
        var t :| t in ts;
        ThreadExit(t);
        ts := ts - {t};
      }
    }

    /** Its reference loop. */
    method ReleaseRefs(dying: nat -> seq<Nid>, k: nat) returns (next: nat)
      requires Valid() && ThreadsIdle(st)
      modifies this
      ensures Valid() && ThreadsIdle(st) && st.refs == map[]
    {
      hide Inv;
      next := k;
      while st.refs.Keys != {}
        invariant Valid() && ThreadsIdle(st)
        decreases |st.refs.Keys|
      {
        Elsewhere(dying(next));
        next := next + 1;
        var r :| r in st.refs;
        DropReference(r);
      }
    }

    /** Its two calls of binder_release_work. */
    method ReleaseLists(dying: nat -> seq<Nid>, k: nat)
      requires Valid() && ThreadsIdle(st) && st.refs == map[]
      modifies this
      ensures Valid() && ThreadsIdle(st) && st.refs == map[] && st.procTodo == [] && st.delivered == []
    {
      hide Inv, WithoutDid;
      var next := k;
      while st.procTodo != []
        invariant Valid() && ThreadsIdle(st) && st.refs == map[]
        decreases |st.procTodo|
      {
        Elsewhere(dying(next));
        next := next + 1;
        ListedOn(st, g, st.procTodo[0]);
        WithoutShorter(st.procTodo, st.procTodo[0]);
        IdleKept(st, st.procTodo[0]);
        Scrap(st.procTodo[0]);
      }
      while st.delivered != []
        invariant Valid() && ThreadsIdle(st) && st.refs == map[] && st.procTodo == []
        decreases |st.delivered|
      {
        Elsewhere(dying(next));
        next := next + 1;
        ListedOn(st, g, st.delivered[0]);
        WithoutShorter(st.delivered, st.delivered[0]);
        IdleKept(st, st.delivered[0]);
        Scrap(st.delivered[0]);
      }
    }

    /** binder_deferred_release: threads, then references, then what is left on the process's two lists, with deaths
        of nodes in between. Nothing is left over, and no item is met that the release does not know how to free. */
    method Teardown(dying: nat -> seq<Nid>)
      requires Valid()
      modifies this
      ensures Valid() && st.refs == map[] && st.deaths == map[] && g.freed == g.seen.Keys
    {
      hide Inv;
      var k := ReleaseThreads(dying, 0);
      k := ReleaseRefs(dying, k);
      ReleaseLists(dying, k);
      AllGone(st, g);
    }
  }

  /** No death is lost: as long as its notification hangs on the reference, it waits on the process's list, or it was
      reported, and that once. */
  lemma DeathNotLost(s: State, g: Log, r: Rid)
    requires Inv(s, g) && r in s.refs && s.refs[r].death.Some? && s.refs[r].node in s.deadNodes
    ensures var d := s.refs[r].death.value; d in g.seen && (if d in s.procTodo then g.seen[d].deadSent == 0 else g.seen[d].deadSent == 1)
  {
    hide Inv;
    RefAt(s, g, r);
    Parts(s, g);
    DeathAt(s, g, s.refs[r].death.value);
  }

  // ---- The steps, written out ----

  lemma RequestIs(s: State, g: Log, r: Rid, cookie: nat)
    requires Inv(s, g) && r in s.refs
    ensures var d, late := s.nextId, s.refs[r].node in s.deadNodes;
            && d !in s.deaths
            && Request(s, r, cookie)
               == s.(refs := s.refs[r := Ref(s.refs[r].node, Some(d))], nextId := d + 1,
                     deaths := s.deaths[d := if late then Death(cookie, DeadBinder, OnProc, Some(r)) else Death(cookie, Unset, Nowhere, Some(r))],
                     procTodo := if late then s.procTodo + [d] else s.procTodo)
  {
    hide Inv;
    FreshDid(s, g);
  }

  lemma ClearIs(s: State, r: Rid, place: Place)
    requires r in s.refs && s.refs[r].death.Some? && s.refs[r].death.value in s.deaths && ClearPlace(s, place)
    ensures var d := s.refs[r].death.value; var e, s' := s.deaths[d], ClearDeath(s, r, place); var queue := e.place == Nowhere;
            && s'.refs == s.refs[r := Ref(s.refs[r].node, None)] && s'.delivered == s.delivered
            && s'.deadNodes == s.deadNodes && s'.nextId == s.nextId
            && s'.deaths == s.deaths[d := if !queue then Death(e.cookie, DeadAndClear, e.place, None) else Death(e.cookie, Clear, place, None)]
            && s'.procTodo == (if queue && place == OnProc then s.procTodo + [d] else s.procTodo)
            && s'.threadTodo == if queue && place.OnThread? then s.threadTodo[place.t := s.threadTodo[place.t] + [d]] else s.threadTodo
  {
  }

  lemma NodeDiesIs(s: State, g: Log, n: Nid)
    requires Inv(s, g) && RefsOk(s) && n !in s.deadNodes
    ensures var s' := NodeDies(s, n);
            && s'.deadNodes == s.deadNodes + {n} && s'.refs == s.refs && s'.nextId == s.nextId
            && s'.delivered == s.delivered && s'.threadTodo == s.threadTodo
            && (forall r :: r in s.refs && s.refs[r].node == n && s.refs[r].death.Some? ==>
                  var d := s.refs[r].death.value;
                  && d in s.deaths && d !in s.procTodo && s'.procTodo == s.procTodo + [d]
                  && s'.deaths == s.deaths[d := s.deaths[d].(kind := DeadBinder, place := OnProc)])
            && ((forall r :: r in s.refs && s.refs[r].node == n ==> s.refs[r].death == None) ==> s'.procTodo == s.procTodo && s'.deaths == s.deaths)
  {
    hide Inv;
    var s' := NodeDies(s, n);
    forall r | r in s.refs && s.refs[r].node == n && s.refs[r].death.Some?
      ensures var d := s.refs[r].death.value;
              && d in s.deaths && d !in s.procTodo && s'.procTodo == s.procTodo + [d]
              && s'.deaths == s.deaths[d := s.deaths[d].(kind := DeadBinder, place := OnProc)]
    {
      assert RefTo(s, n) == Some(r);
      UnlistedWhileAlive(s, g, r);
      ListedOn(s, g, s.refs[r].death.value);
    }
  }

  lemma ReportIs(s: State, thread: Option<Tid>)
    requires ListsOk(s)
    requires match thread case Some(t) => t in s.threadTodo && s.threadTodo[t] != [] case None => s.procTodo != []
    ensures var d := match thread case Some(t) => s.threadTodo[t][0] case None => s.procTodo[0];
            && d in s.deaths
            && var clear := s.deaths[d].kind == Clear;
               Report(s, d)
               == s.(deaths := if clear then s.deaths - {d} else s.deaths[d := s.deaths[d].(place := OnDelivered)],
                     delivered := if clear then s.delivered else s.delivered + [d],
                     procTodo := if thread == None then s.procTodo[1..] else s.procTodo,
                     threadTodo := match thread
                                   case None => s.threadTodo
                                   case Some(t) => s.threadTodo[t := s.threadTodo[t][1..]])
  {
    hide WithoutDid, OffList, Distinct;
    match thread
    case None =>
      assert s.procTodo[0] in s.procTodo;
      WithoutIs(s.procTodo, s.procTodo[0]);
    case Some(t) =>
      assert s.threadTodo[t][0] in s.threadTodo[t];
      WithoutIs(s.threadTodo[t], s.threadTodo[t][0]);
  }

  lemma DoneIs(s: State, d: Did, place: Place)
    requires ListsOk(s) && d in s.deaths && s.deaths[d].place == OnDelivered && ClearPlace(s, place)
    ensures var e, s' := s.deaths[d], Done(s, d, place); var queue := e.kind == DeadAndClear;
            && OffList(s.delivered, s'.delivered, d)
            && s'.refs == s.refs && s'.deadNodes == s.deadNodes && s'.nextId == s.nextId
            && s'.deaths == s.deaths[d := if !queue then e.(place := Nowhere) else e.(kind := Clear, place := place)]
            && s'.procTodo == (if queue && place == OnProc then s.procTodo + [d] else s.procTodo)
            && s'.threadTodo == if queue && place.OnThread? then s.threadTodo[place.t := s.threadTodo[place.t] + [d]] else s.threadTodo
  {
    hide WithoutDid, OffList, Distinct;
    WithoutIs(s.delivered, d);
  }

  lemma DroppedIs(s: State, r: Rid, d: Did)
    requires ListsOk(s) && r in s.refs && s.refs[r].death == Some(d) && d in s.deaths
    ensures Gone(s, DropRef(s, r), d)
  {
    hide Gone, ListsOk;
    var s1 := s.(refs := s.refs - {r});
    SameLists(s, s1);
    GoneIs(s1, d);
    GoneAside(s, s1, DropRef(s, r), d);
  }

  lemma GoneAside(s: State, s1: State, s': State, d: Did)
    requires d in s.deaths && s1 == s.(refs := s1.refs) && Gone(s1, s', d)
    ensures Gone(s, s', d)
  {
  }

  ghost predicate ThreadsIdle(s: State) {
    forall t :: t in s.threadTodo ==> s.threadTodo[t] == []
  }

  lemma IdleKept(s: State, d: Did)
    requires ThreadsIdle(s) && d in s.deaths && !s.deaths[d].place.OnThread?
    ensures ThreadsIdle(Free(Unlist(s, d), d)) && Free(Unlist(s, d), d).refs == s.refs
    ensures s.deaths[d].place == OnProc ==> Free(Unlist(s, d), d).procTodo == WithoutDid(s.procTodo, d)
    ensures s.deaths[d].place == OnDelivered ==>
              Free(Unlist(s, d), d).procTodo == s.procTodo && Free(Unlist(s, d), d).delivered == WithoutDid(s.delivered, d)
  {
  }

  /** What the death of a node leaves alone. */
  lemma DeathTouches(s: State, g: Log, n: Nid)
    requires Inv(s, g) && RefsOk(s) && n !in s.deadNodes
    ensures var s' := NodeDies(s, n);
            && s'.refs == s.refs && s'.threadTodo == s.threadTodo && s'.delivered == s.delivered
            && (s.refs == map[] ==> s'.procTodo == s.procTodo)
  {
  }

  lemma NewThreadLists(s: State, t: Tid)
    requires ListsOk(s) && t !in s.threadTodo
    ensures ListsOk(s.(threadTodo := s.threadTodo[t := []]))
  {
  }

  lemma {:induction false} WithoutShorter(q: seq<Did>, d: Did)
    ensures |WithoutDid(q, d)| <= |q| && (d in q ==> |WithoutDid(q, d)| < |q|)
  {
    if q != [] { WithoutShorter(q[1..], d); }
  }

  lemma PlaceListed(s: State, d: Did)
    requires ListsOk(s) && d in s.deaths
    ensures match s.deaths[d].place
            case Nowhere => true
            case OnProc => d in s.procTodo
            case OnDelivered => d in s.delivered
            case OnThread(t) => t in s.threadTodo && d in s.threadTodo[t]
  {
  }

  lemma AllGone(s: State, g: Log)
    requires Inv(s, g) && s.refs == map[] && s.procTodo == [] && s.delivered == []
    requires forall t :: t in s.threadTodo ==> s.threadTodo[t] == []
    ensures s.deaths == map[] && g.freed == g.seen.Keys
  {
    forall d ensures d !in s.deaths {
      if d in s.deaths {
        DeathAt(s, g, d);
        Parts(s, g);
        PlaceListed(s, d);
      }
    }
    assert forall d :: d in g.seen <==> d in g.freed;
  }

  /** Over any run: a cleared notification that was reported as cleared was reported once, after the request to
      clear it, and only when the death, if it had been reported, was acknowledged. */
  lemma ClearedOnce(s: State, g: Log, d: Did)
    requires Inv(s, g) && d in g.seen
    ensures g.seen[d].clearDone <= 1
    ensures g.seen[d].clearDone == 1 ==> g.seen[d].cleared && g.seen[d].deadSent == g.seen[d].doneReceived && d in g.freed && d !in s.deaths
    ensures d in s.deaths ==> g.seen[d].clearDone == 0 && (g.seen[d].cleared <==> s.deaths[d].ref == None)
  {
    FreedAt(s, g, d);
    if d in s.deaths { DeathAt(s, g, d); }
  }
}
