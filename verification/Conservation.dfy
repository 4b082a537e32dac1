/** Whatever a transaction takes, the release of its buffer gives back: over all objects, and from
    wherever the translation stopped. */
module Conservation {
  import opened Words
  import opened NodeRefs
  import opened ObjectRefs

  /** The loop of binder_transaction over the objects: the translated ones, up to the first refusal. */
  function Translate(s: State, from: Pid, to_: Pid, objs: seq<Obj>, envs: seq<Env>): (State, seq<Obj>)
    requires Inv(s) && |envs| == |objs|
    decreases |objs|
  {
    if objs == [] then (s, [])
    else
      var (s1, r) := TranslateOne(s, from, to_, objs[0], envs[0]);
      if r == None then (s1, [])
      else
        assert Inv(s1) by { TranslateKeeps(s, from, to_, objs[0], envs[0]); }
        var (s2, outs) := Translate(s1, from, to_, objs[1..], envs[1..]);
        (s2, [r.value] + outs)
  }

  lemma TranslateKeeps(s: State, from: Pid, to_: Pid, o: Obj, env: Env)
    requires Inv(s)
    ensures Inv(TranslateOne(s, from, to_, o, env).0)
  {
    var cell := TranslateOneWorks(s, from, to_, o, env);
  }

  /** The states passed on the way: one object after the other is translated, up to the end or the first that is refused. */
  ghost predicate OneByOne(from: Pid, to_: Pid, objs: seq<Obj>, envs: seq<Env>, states: seq<State>, outs: seq<Obj>)
    requires |envs| == |objs|
  {
    && |outs| <= |objs| && |states| == (if |outs| == |objs| then |outs| + 1 else |outs| + 2)
    && forall j :: 0 <= j < |states| - 1 ==>
         Inv(states[j]) && TranslateOne(states[j], from, to_, objs[j], envs[j]) == (states[j + 1], if j < |outs| then Some(outs[j]) else None)
  }

  lemma {:induction false} TranslateOneByOne(s: State, from: Pid, to_: Pid, objs: seq<Obj>, envs: seq<Env>) returns (states: seq<State>)
    requires Inv(s) && |envs| == |objs|
    ensures var (s', outs) := Translate(s, from, to_, objs, envs);
            OneByOne(from, to_, objs, envs, states, outs) && states[0] == s && states[|states| - 1] == s'
    decreases |objs|
  {
    hide Inv, TranslateOne;
    if objs == [] { return [s]; }
    var (s1, r) := TranslateOne(s, from, to_, objs[0], envs[0]);
    TranslateKeeps(s, from, to_, objs[0], envs[0]);
    if r == None { return [s, s1]; }
    var rest := TranslateOneByOne(s1, from, to_, objs[1..], envs[1..]);
    states := [s] + rest;
    var outs := Translate(s1, from, to_, objs[1..], envs[1..]).1;
    forall j | 0 <= j < |states| - 1
      ensures Inv(states[j])
      ensures TranslateOne(states[j], from, to_, objs[j], envs[j]) == (states[j + 1], if j < 1 + |outs| then Some(([r.value] + outs)[j]) else None)
    {
      if j > 0 { assert states[j] == rest[j - 1] && states[j + 1] == rest[j] && objs[j] == objs[1..][j - 1] && envs[j] == envs[1..][j - 1]; }
    }
  }

  ghost predicate Wf(s: State) {
    (forall k :: k in s.refs ==> k.n in s.nodes) && DescsApart(s)
  }

  /** One object of binder_transaction_buffer_release. */
  function ReleaseOne(s: State, to_: Pid, o: Obj): (s': State)
    requires Wf(s)
    ensures Wf(s')
  {
    match o
    case Binder(ptr, _, strong) =>
      var n := Nid(to_, ptr);
      if n in s.nodes && !s.nodes[n].dead then
        var s1 := DecNode(IncTmp(s, n), n, strong, false);
        assert Wf(s1) by { DecNodeWf(IncTmp(s, n), n, strong, false); }
        if n in s1.nodes then
          assert Wf(PutNode(s1, n)) by { PutNodeWf(s1, n); }
          PutNode(s1, n)
        else s1
      else s
    case Handle(desc, strong) =>
      var k := FindRef(s, to_, desc);
      if k == None || (strong && s.refs[k.value].strong == 0) then s
      else
        assert Wf(DecRef(s, k.value, strong)) by { DecRefWf(s, k.value, strong); }
        DecRef(s, k.value, strong)
    case Other(_) => s
  }

  /** All objects of a buffer, up to the one where the translation had stopped. */
  function Release(s: State, to_: Pid, outs: seq<Obj>): (s': State)
    requires Wf(s)
    ensures Wf(s')
    decreases |outs|
  {
    if outs == [] then s else Release(ReleaseOne(s, to_, outs[0]), to_, outs[1..])
  }

  lemma DecNodeWf(s: State, n: Nid, strong: bool, internal: bool)
    requires n in s.nodes && Wf(s)
    ensures Wf(DecNode(s, n, strong, internal))
  {
    hide DescsApart;
    var s' := DecNode(s, n, strong, internal);
    assert s'.refs == s.refs;
    SameDescs(s, s');
    forall k | k in s'.refs ensures k.n in s'.nodes { assert k.n == n ==> k in Links(s, n); }
  }

  lemma PutNodeWf(s: State, n: Nid)
    requires n in s.nodes && Wf(s)
    ensures Wf(PutNode(s, n))
  {
    hide DescsApart, DecNode;
    var s1 := SetNode(s, n, s.nodes[n].(tmpRefs := s.nodes[n].tmpRefs - 1));
    SameDescs(s, s1);
    DecNodeWf(s1, n, false, true);
  }

  lemma DecRefWf(s: State, k: Key, strong: bool)
    requires Wf(s) && k in s.refs && k.n in s.nodes
    ensures Wf(DecRef(s, k, strong))
  {
    hide DescsApart, DecNode;
    var r := s.refs[k];
    if (if strong then r.strong else r.weak) != 0 {
      var r1 := if strong then r.(strong := r.strong - 1) else r.(weak := r.weak - 1);
      var s1 := SetRef(s, k, r1);
      SameDescKept(s, k, r1);
      LinkedStays(s1, k);
      DecNodeWf(s1, k.n, true, true);
      var s2 := if strong && r1.strong == 0 then DecNode(s1, k.n, true, true) else s1;
      var s3 := s2.(refs := s2.refs - {k});
      FewerDescs(s2, s3, k);
      if r1.strong == 0 && r1.weak == 0 { DecNodeWf(s3, k.n, false, true); }
    }
  }

  lemma FewerDescs(s: State, s': State, k: Key)
    requires DescsApart(s) && s'.refs == s.refs - {k}
    ensures DescsApart(s')
  {
  }

  lemma InvWf(s: State)
    requires Inv(s)
    ensures Wf(s)
  {
  }

  // ---- Owed counts ----

  /** How often a count occurs among the ones that translated objects stand for. */
  function Times(cells: seq<Option<Cell>>, c: Cell): nat {
    if cells == [] then 0 else (if cells[0] == Some(c) then 1 else 0) + Times(cells[1..], c)
  }

  ghost predicate AllBound(s: State, to_: Pid, outs: seq<Obj>, cells: seq<Option<Cell>>) {
    |cells| == |outs| && forall i :: 0 <= i < |outs| ==> Bound(s, to_, outs[i], cells[i])
  }

  /** Every count that translated objects claim covers those claims and the pending acknowledgements. */
  ghost predicate Covered(s: State, cells: seq<Option<Cell>>) {
    forall c :: Times(cells, c) > 0 ==> Count(s, c) >= Times(cells, c) + Pend(s, c)
  }

  lemma {:induction false} TimesAt(cells: seq<Option<Cell>>, i: nat)
    requires i < |cells| && cells[i].Some?
    ensures Times(cells, cells[i].value) >= 1
  {
    if i > 0 { assert cells[1..][i - 1] == cells[i]; TimesAt(cells[1..], i - 1); }
  }

  /** Every object that still stands for a count keeps doing so. */
  lemma AllBoundKept(s: State, s': State, to_: Pid, outs: seq<Obj>, cells: seq<Option<Cell>>)
    requires AllBound(s, to_, outs, cells) && Persist(s, s')
    requires forall i :: 0 <= i < |cells| && cells[i].Some? ==> Count(s, cells[i].value) > 0 && Count(s', cells[i].value) > 0
    ensures AllBound(s', to_, outs, cells)
  {
    hide Persist, Bound;
    forall i | 0 <= i < |outs| ensures Bound(s', to_, outs[i], cells[i]) {
      BoundKept(s, s', to_, outs[i], cells[i]);
    }
  }

  // ---- Translating ----

  /** What translating a list does: each translated object stands for one count more, and for nothing else. */
  ghost predicate Taken(s: State, to_: Pid, s': State, outs: seq<Obj>, cells: seq<Option<Cell>>) {
    && Inv(s') && Persist(s, s') && AllBound(s', to_, outs, cells)
    && forall c :: Count(s', c) == Count(s, c) + Times(cells, c)
  }

  lemma InvNonNegative(s: State, c: Cell)
    requires Inv(s)
    ensures Count(s, c) >= Pend(s, c) || (c.NodeStrong? && Overdrawn(s, c.n))
  {
    match c
    case NodeStrong(n) => if n in s.nodes { NodeAt(s, n); }
    case NodeWeak(n) => if n in s.nodes { NodeAt(s, n); }
    case NodeTmp(n) => if n in s.nodes { NodeAt(s, n); }
    case _ =>
  }

  /** What translated objects stand for was not below zero before. */
  ghost predicate Grounded(s: State, cells: seq<Option<Cell>>) {
    forall c :: Times(cells, c) > 0 ==> Count(s, c) >= Pend(s, c)
  }

  lemma BoundGrounded(s: State, s': State, to_: Pid, o: Obj, cell: Option<Cell>)
    requires Inv(s) && Persist(s, s') && Bound(s', to_, o, cell)
    ensures cell.Some? ==> Count(s, cell.value) >= Pend(s, cell.value)
  {
    if cell.Some? { InvNonNegative(s, cell.value); }
  }

  lemma {:induction false} TimesHas(cells: seq<Option<Cell>>, c: Cell) returns (i: nat)
    requires Times(cells, c) > 0
    ensures i < |cells| && cells[i] == Some(c)
  {
    if cells[0] == Some(c) {
      i := 0;
    } else {
      var j := TimesHas(cells[1..], c);
      i := j + 1;
    }
  }

  lemma TakenGrounded(s: State, to_: Pid, s': State, outs: seq<Obj>, cells: seq<Option<Cell>>)
    requires Inv(s) && Taken(s, to_, s', outs, cells)
    ensures Grounded(s, cells)
  {
    hide Inv, Persist, Bound;
    forall c | Times(cells, c) > 0 ensures Count(s, c) >= Pend(s, c) {
      var i := TimesHas(cells, c);
      BoundGrounded(s, s', to_, outs[i], cells[i]);
    }
  }

  lemma OneTaken(s: State, to_: Pid, s1: State, r: Obj, cell: Option<Cell>, s2: State, outs: seq<Obj>, cells: seq<Option<Cell>>)
    requires Inv(s) && Translated(s, to_, s1, Some(r), cell) && Taken(s1, to_, s2, outs, cells)
    ensures Taken(s, to_, s2, [r] + outs, [cell] + cells)
  {
    hide Inv, Persist, Bound;
    forall c ensures Count(s2, c) == Count(s, c) + Times([cell] + cells, c) {
      assert ([cell] + cells)[1..] == cells;
      OneShift(s, s1, Some(r), cell, c);
    }
    forall c: Cell | Count(s, c) > 0 ensures Count(s1, c) > 0 { OneShift(s, s1, Some(r), cell, c); }
    PersistTrans(s, s1, s2);
    if cell.Some? {
      OneShift(s, s1, Some(r), cell, cell.value);
      BoundGrounded(s, s1, to_, r, cell);
    }
    BoundKept(s1, s2, to_, r, cell);
  }

  lemma OneShift(s: State, s1: State, r: Option<Obj>, cell: Option<Cell>, c: Cell)
    requires r.Some? && if r.Some? && cell.Some? then Shifted(s, s1, cell.value, 1) else SameCounts(s, s1)
    ensures Count(s1, c) == Count(s, c) + if cell == Some(c) then 1 else 0
  {
  }

  lemma NothingTaken(s: State, to_: Pid, s': State)
    requires Inv(s') && Persist(s, s') && SameCounts(s, s')
    ensures Taken(s, to_, s', [], [])
  {
  }

  lemma {:induction false} TranslateTakes(s: State, from: Pid, to_: Pid, objs: seq<Obj>, envs: seq<Env>) returns (cells: seq<Option<Cell>>)
    requires Inv(s) && |envs| == |objs|
    ensures var (s', outs) := Translate(s, from, to_, objs, envs);
            Taken(s, to_, s', outs, cells)
    decreases |objs|
  {
    hide Inv, Persist, Bound, Taken, TranslateOne, SameCounts;
    cells := [];
    if objs == [] {
      PersistRefl(s);
      SameCountsRefl(s);
      NothingTaken(s, to_, s);
    } else {
      var cell := TranslateOneWorks(s, from, to_, objs[0], envs[0]);
      var (s1, r) := TranslateOne(s, from, to_, objs[0], envs[0]);
      if r == None {
        NothingTaken(s, to_, s1);
      } else {
        cells := TranslateTakes(s1, from, to_, objs[1..], envs[1..]);
        var (s2, outs) := Translate(s1, from, to_, objs[1..], envs[1..]);
        OneTaken(s, to_, s1, r.value, cell, s2, outs, cells);
        cells := [cell] + cells;
      }
    }
  }

  // ---- Releasing ----

  lemma ReleaseBinder(s: State, n: Nid, strong: bool)
    requires Inv(s) && n in s.nodes && Count(s, NodeCell(n, strong)) >= 1 + Pend(s, NodeCell(n, strong))
    ensures var s1 := DecNode(IncTmp(s, n), n, strong, false);
            && n in s1.nodes
            && Inv(PutNode(s1, n)) && Shifted(s, PutNode(s1, n), NodeCell(n, strong), -1) && Persist(s, PutNode(s1, n))
  {
    hide Inv, Persist, Shifted, DecNode, IncTmp, PutNode;
    var s0 := IncTmp(s, n);
    IncTmpShifts(s, n);
    IncTmpNode(s, n);
    IncTmpCells(s, n, strong);
    DecLocalShifts(s0, n, strong);
    var s1 := DecNode(s0, n, strong, false);
    TmpAfterDec(s0, s1, n, strong);
    PutNodeShifts(s1, n);
    Sandwich(s, s0, s1, PutNode(s1, n), NodeTmp(n), NodeCell(n, strong), -1);
  }

  lemma IncTmpCells(s: State, n: Nid, strong: bool)
    requires n in s.nodes
    ensures Count(IncTmp(s, n), NodeCell(n, strong)) == Count(s, NodeCell(n, strong))
    ensures Pend(IncTmp(s, n), NodeCell(n, strong)) == Pend(s, NodeCell(n, strong))
  {
  }

  lemma TmpAfterDec(s0: State, s1: State, n: Nid, strong: bool)
    requires Shifted(s0, s1, NodeCell(n, strong), -1) && Count(s0, NodeTmp(n)) >= 1
    ensures Count(s1, NodeTmp(n)) >= 1 && n in s1.nodes
  {
    assert Count(s1, NodeTmp(n)) == Count(s0, NodeTmp(n));
  }

  /** Releasing an object takes away the one count it stands for. */
  lemma ReleaseOneGives(s: State, to_: Pid, o: Obj, cell: Option<Cell>)
    requires Inv(s) && Wf(s) && Bound(s, to_, o, cell)
    requires cell.Some? ==> Count(s, cell.value) >= 1 + Pend(s, cell.value)
    ensures var s' := ReleaseOne(s, to_, o);
            && Inv(s') && Persist(s, s')
            && if cell.Some? then Shifted(s, s', cell.value, -1) else SameCounts(s, s')
  {
    hide Inv, Persist, Shifted, SameCounts, DecNode, IncTmp, PutNode, DecRef, DescsApart;
    PersistRefl(s);
    SameCountsRefl(s);
    match o
    case Binder(ptr, _, strong) => ReleaseBinder(s, Nid(to_, ptr), strong);
    case Handle(desc, strong) =>
      var k :| k in s.refs && k.p == to_ && s.refs[k].desc == desc && cell == Some(RefCell(k, strong));
      FoundIs(s, k);
      KeyNode(s, k);
      DecRefPersist(s, k, strong);
    case Other(_) =>
  }

  lemma CoveredNext(s: State, s1: State, cells: seq<Option<Cell>>)
    requires cells != [] && Covered(s, cells) && Persist(s, s1)
    requires if cells[0].Some? then Shifted(s, s1, cells[0].value, -1) else SameCounts(s, s1)
    ensures Covered(s1, cells[1..])
  {
    forall c | Times(cells[1..], c) > 0 ensures Count(s1, c) >= Times(cells[1..], c) + Pend(s1, c) {
      assert Times(cells, c) > 0;
      assert Count(s, c) >= Times(cells, c) + Pend(s, c);
      assert Pend(s1, c) <= Pend(s, c);
    }
  }

  lemma RestBound(s: State, s1: State, to_: Pid, outs: seq<Obj>, cells: seq<Option<Cell>>)
    requires outs != [] && AllBound(s, to_, outs, cells) && Covered(s, cells) && Covered(s1, cells[1..]) && Persist(s, s1)
    ensures AllBound(s1, to_, outs[1..], cells[1..])
  {
    hide Persist, Bound;
    assert AllBound(s, to_, outs[1..], cells[1..]);
    forall i | 0 <= i < |cells[1..]| && cells[1..][i].Some?
      ensures Count(s, cells[1..][i].value) > 0 && Count(s1, cells[1..][i].value) > 0
    {
      TimesAt(cells[1..], i);
      TimesAt(cells, i + 1);
      assert Count(s, cells[1..][i].value) >= Times(cells, cells[1..][i].value) + Pend(s, cells[1..][i].value);
      assert Count(s1, cells[1..][i].value) >= Times(cells[1..], cells[1..][i].value) + Pend(s1, cells[1..][i].value);
    }
    AllBoundKept(s, s1, to_, outs[1..], cells[1..]);
  }

  lemma {:induction false} ReleaseGives(s: State, to_: Pid, outs: seq<Obj>, cells: seq<Option<Cell>>)
    requires Inv(s) && Wf(s) && AllBound(s, to_, outs, cells) && Covered(s, cells)
    ensures Inv(Release(s, to_, outs)) && forall c :: Count(Release(s, to_, outs), c) == Count(s, c) - Times(cells, c)
    decreases |outs|
  {
    hide Inv, Persist, Bound, ReleaseOne, Wf, Shifted, SameCounts, AllBound, Covered;
    if outs == [] {
      BoundLength(s, to_, outs, cells);
    } else {
      BoundLength(s, to_, outs, cells);
      FirstBound(s, to_, outs, cells);
      FirstCovered(s, cells);
      ReleaseOneGives(s, to_, outs[0], cells[0]);
      var s1 := ReleaseOne(s, to_, outs[0]);
      CoveredNext(s, s1, cells);
      RestBound(s, s1, to_, outs, cells);
      ReleaseGives(s1, to_, outs[1..], cells[1..]);
      forall c ensures Count(Release(s, to_, outs), c) == Count(s, c) - Times(cells, c) {
        OneBack(s, s1, cells[0], c);
      }
    }
  }

  lemma BoundLength(s: State, to_: Pid, outs: seq<Obj>, cells: seq<Option<Cell>>)
    requires AllBound(s, to_, outs, cells)
    ensures |cells| == |outs|
  {
  }

  lemma FirstBound(s: State, to_: Pid, outs: seq<Obj>, cells: seq<Option<Cell>>)
    requires outs != [] && AllBound(s, to_, outs, cells)
    ensures Bound(s, to_, outs[0], cells[0])
  {
  }

  lemma FirstCovered(s: State, cells: seq<Option<Cell>>)
    requires cells != [] && Covered(s, cells)
    ensures cells[0].Some? ==> Count(s, cells[0].value) >= 1 + Pend(s, cells[0].value)
  {
    if cells[0].Some? { assert Count(s, cells[0].value) >= Times(cells, cells[0].value) + Pend(s, cells[0].value); }
  }

  lemma OneBack(s: State, s1: State, cell: Option<Cell>, c: Cell)
    requires if cell.Some? then Shifted(s, s1, cell.value, -1) else SameCounts(s, s1)
    ensures Count(s1, c) == Count(s, c) - if cell == Some(c) then 1 else 0
  {
  }

  lemma TakenCovered(s: State, to_: Pid, s': State, outs: seq<Obj>, cells: seq<Option<Cell>>)
    requires Inv(s) && Taken(s, to_, s', outs, cells)
    ensures Covered(s', cells)
  {
    TakenGrounded(s, to_, s', outs, cells);
    hide Inv, AllBound;
    forall c | Times(cells, c) > 0 ensures Count(s', c) >= Times(cells, c) + Pend(s', c) {
      assert Pend(s', c) <= Pend(s, c);
    }
  }

  /** Translating any objects and releasing what was translated restores every count, wherever translation stopped. */
  lemma RollbackRestores(s: State, from: Pid, to_: Pid, objs: seq<Obj>, envs: seq<Env>)
    requires Inv(s) && |envs| == |objs|
    ensures var (s1, outs) := Translate(s, from, to_, objs, envs);
            && Inv(s1) && Wf(s1) && |outs| <= |objs|
            && Inv(Release(s1, to_, outs)) && SameCounts(s, Release(s1, to_, outs))
  {
    hide Inv, AllBound, Persist, Translate, Release, Covered, Wf;
    var cells := TranslateTakes(s, from, to_, objs, envs);
    var (s1, outs) := Translate(s, from, to_, objs, envs);
    TakenCovered(s, to_, s1, outs, cells);
    InvWf(s1);
    ReleaseGives(s1, to_, outs, cells);
    TranslateLength(s, from, to_, objs, envs);
  }

  lemma {:induction false} TranslateLength(s: State, from: Pid, to_: Pid, objs: seq<Obj>, envs: seq<Env>)
    requires Inv(s) && |envs| == |objs|
    ensures |Translate(s, from, to_, objs, envs).1| <= |objs|
    decreases |objs|
  {
    hide Inv, TranslateOne;
    if objs != [] {
      var (s1, r) := TranslateOne(s, from, to_, objs[0], envs[0]);
      if r.Some? {
        TranslateKeeps(s, from, to_, objs[0], envs[0]);
        TranslateLength(s1, from, to_, objs[1..], envs[1..]);
      }
    }
  }

  // ---- A whole transaction, with the count on its target node ----

  /** binder_get_node_refs_for_txn, the translation, and the put of the temporary count at the end. */
  function SendTo(s: State, n: Nid): State
    requires n in s.nodes && !s.nodes[n].dead
  {
    IncNode(IncTmp(s, n), n, true, false, false).0
  }

  lemma SendToTakes(s: State, n: Nid)
    requires Inv(s) && n in s.nodes && !s.nodes[n].dead
    ensures Inv(SendTo(s, n)) && n in SendTo(s, n).nodes && Persist(s, SendTo(s, n))
    ensures forall c :: Count(SendTo(s, n), c) == Count(s, c) + (if c == NodeStrong(n) then 1 else 0) + (if c == NodeTmp(n) then 1 else 0)
  {
    hide Inv, Persist, IncNode, IncTmp, Shifted;
    var s1 := IncTmp(s, n);
    IncTmpShifts(s, n);
    IncTmpNode(s, n);
    IncLocalShifts(s1, n, true);
    forall c ensures Count(SendTo(s, n), c) == Count(s, c) + (if c == NodeStrong(n) then 1 else 0) + (if c == NodeTmp(n) then 1 else 0) {
      TwoShifts(s, s1, SendTo(s, n), n, c);
    }
    forall c: Cell | Count(s, c) > 0 ensures Count(s1, c) > 0 { OneUp(s, s1, NodeTmp(n), c); }
    PersistTrans(s, s1, SendTo(s, n));
  }

  lemma TwoShifts(s: State, s1: State, s2: State, n: Nid, c: Cell)
    requires Shifted(s, s1, NodeTmp(n), 1) && Shifted(s1, s2, NodeStrong(n), 1)
    ensures Count(s2, c) == Count(s, c) + (if c == NodeStrong(n) then 1 else 0) + (if c == NodeTmp(n) then 1 else 0)
  {
    assert Count(s1, c) == Count(s, c) + if c == NodeTmp(n) then 1 else 0;
    assert Count(s2, c) == Count(s1, c) + if c == NodeStrong(n) then 1 else 0;
  }

  lemma OneUp(s: State, s1: State, cell: Cell, c: Cell)
    requires Shifted(s, s1, cell, 1)
    ensures Count(s1, c) >= Count(s, c)
  {
  }

  /** The counts after a translation, with the target node's two still out. */
  ghost predicate Outstanding(s: State, s': State, n: Nid, to_: Pid, outs: seq<Obj>, cells: seq<Option<Cell>>, tmp: nat) {
    && Inv(s') && AllBound(s', to_, outs, cells) && Grounded(s, cells) && n in s.nodes && !s.nodes[n].dead
    && (forall c :: Count(s', c) == Count(s, c) + Times(cells, c) + (if c == NodeStrong(n) then 1 else 0) + (if c == NodeTmp(n) then tmp else 0))
    && (forall c :: Pend(s', c) <= Pend(s, c))
  }

  lemma GroundedBefore(s: State, n: Nid, cells: seq<Option<Cell>>)
    requires Inv(s) && n in s.nodes && !s.nodes[n].dead && Grounded(SendTo(s, n), cells)
    ensures Grounded(s, cells)
  {
    hide Inv, SendTo, Persist;
    SendToTakes(s, n);
    forall c | Times(cells, c) > 0 ensures Count(s, c) >= Pend(s, c) {
      InvNonNegative(s, c);
      if c.NodeStrong? && Overdrawn(s, c.n) { OverdrawnStays(s, SendTo(s, n), c.n); }
    }
  }

  lemma OverdrawnStays(s: State, s': State, n: Nid)
    requires Persist(s, s') && Overdrawn(s, n)
    ensures Overdrawn(s', n)
  {
  }

  lemma SentOutstanding(s: State, n: Nid, from: Pid, to_: Pid, objs: seq<Obj>, envs: seq<Env>) returns (cells: seq<Option<Cell>>)
    requires Inv(s) && n in s.nodes && !s.nodes[n].dead && |envs| == |objs| && Inv(SendTo(s, n))
    ensures var (s2, outs) := Translate(SendTo(s, n), from, to_, objs, envs);
            Outstanding(s, s2, n, to_, outs, cells, 1) && n in s2.nodes
  {
    hide Inv, Translate, AllBound, SendTo;
    SendToTakes(s, n);
    cells := TranslateTakes(SendTo(s, n), from, to_, objs, envs);
    var (s2, outs) := Translate(SendTo(s, n), from, to_, objs, envs);
    forall c ensures Pend(s2, c) <= Pend(s, c) {
      assert Pend(s2, c) <= Pend(SendTo(s, n), c);
      assert Pend(SendTo(s, n), c) <= Pend(s, c);
    }
    TakenGrounded(SendTo(s, n), to_, s2, outs, cells);
    GroundedBefore(s, n, cells);
    InvNonNegative(s, NodeTmp(n));
    assert Count(s2, NodeTmp(n)) > 0;
  }

  /** Giving up the temporary count on the target node. */
  lemma TmpGiven(s: State, s': State, n: Nid, to_: Pid, outs: seq<Obj>, cells: seq<Option<Cell>>)
    requires Inv(s) && n in s'.nodes && Outstanding(s, s', n, to_, outs, cells, 1)
    ensures Outstanding(s, PutNode(s', n), n, to_, outs, cells, 0) && n in PutNode(s', n).nodes
  {
    hide Inv, AllBound, PutNode, Bound, Persist;
    InvNonNegative(s, NodeTmp(n));
    assert Count(s', NodeTmp(n)) == Count(s, NodeTmp(n)) + Times(cells, NodeTmp(n)) + 1;
    PutNodeShifts(s', n);
    var s1 := PutNode(s', n);
    forall c ensures Count(s1, c) == Count(s, c) + Times(cells, c) + (if c == NodeStrong(n) then 1 else 0) {
      assert Count(s1, c) == Count(s', c) + if c == NodeTmp(n) then -1 else 0;
    }
    PendAfter(s, s', s1);
    KeptCells(s, s', s1, n, to_, outs, cells);
    InvNonNegative(s, NodeStrong(n));
    assert Count(s1, NodeStrong(n)) > 0;
  }

  lemma PendAfter(s: State, s': State, s1: State)
    requires Persist(s', s1) && forall c :: Pend(s', c) <= Pend(s, c)
    ensures forall c :: Pend(s1, c) <= Pend(s, c)
  {
    forall c ensures Pend(s1, c) <= Pend(s, c) { assert Pend(s1, c) <= Pend(s', c); }
  }

  lemma KeptCells(s: State, s': State, s1: State, n: Nid, to_: Pid, outs: seq<Obj>, cells: seq<Option<Cell>>)
    requires Inv(s) && AllBound(s', to_, outs, cells) && Persist(s', s1) && Grounded(s, cells)
    requires forall c :: Count(s', c) >= Count(s, c) + Times(cells, c)
    requires forall c :: Count(s1, c) >= Count(s, c) + Times(cells, c)
    ensures AllBound(s1, to_, outs, cells)
  {
    hide Inv, Bound, Persist;
    BoundLength(s', to_, outs, cells);
    forall i | 0 <= i < |cells| && cells[i].Some? ensures Count(s', cells[i].value) > 0 && Count(s1, cells[i].value) > 0 {
      TimesAt(cells, i);
    }
    AllBoundKept(s', s1, to_, outs, cells);
  }

  /** binder_transaction_buffer_release: the count on the target node first, then the objects. */
  function ReleaseBuffer(s: State, n: Nid, to_: Pid, outs: seq<Obj>): State
    requires Wf(s) && n in s.nodes
  {
    DecNodeWf(s, n, true, false);
    Release(DecNode(s, n, true, false), to_, outs)
  }

  lemma BufferReleased(s: State, s': State, n: Nid, to_: Pid, outs: seq<Obj>, cells: seq<Option<Cell>>, tmp: nat)
    requires Inv(s) && Wf(s') && n in s'.nodes && Outstanding(s, s', n, to_, outs, cells, tmp)
    ensures Inv(ReleaseBuffer(s', n, to_, outs))
    ensures forall c :: Count(ReleaseBuffer(s', n, to_, outs), c) == Count(s, c) + if c == NodeTmp(n) then tmp else 0
  {
    hide Inv, AllBound, Bound, Persist, DecNode, Release, Wf;
    InvNonNegative(s, NodeStrong(n));
    assert Count(s', NodeStrong(n)) == Count(s, NodeStrong(n)) + Times(cells, NodeStrong(n)) + 1;
    DecLocalShifts(s', n, true);
    var s1 := DecNode(s', n, true, false);
    DecNodeWf(s', n, true, false);
    forall c ensures Count(s1, c) == Count(s, c) + Times(cells, c) + (if c == NodeTmp(n) then tmp else 0) {
      assert Count(s1, c) == Count(s', c) + if c == NodeStrong(n) then -1 else 0;
    }
    PendAfter(s, s', s1);
    KeptCells(s, s', s1, n, to_, outs, cells);
    ReleaseGives(s1, to_, outs, cells);
  }

  /** A transaction that was sent and whose buffer is then freed leaves every count as it was, in both
      processes, the local strong count of the target node included. */
  lemma SendThenFree(s: State, n: Nid, from: Pid, to_: Pid, objs: seq<Obj>, envs: seq<Env>)
    requires Inv(s) && n in s.nodes && !s.nodes[n].dead && |envs| == |objs|
    ensures Inv(SendTo(s, n))
    ensures var (s2, outs) := Translate(SendTo(s, n), from, to_, objs, envs);
            && n in s2.nodes && n in PutNode(s2, n).nodes && Wf(PutNode(s2, n))
            && SameCounts(s, ReleaseBuffer(PutNode(s2, n), n, to_, outs))
  {
    hide Inv, Translate, SendTo, PutNode, ReleaseBuffer, AllBound, Wf;
    SendToTakes(s, n);
    var cells := SentOutstanding(s, n, from, to_, objs, envs);
    var (s2, outs) := Translate(SendTo(s, n), from, to_, objs, envs);
    TmpGiven(s, s2, n, to_, outs, cells);
    InvWf(PutNode(s2, n));
    BufferReleased(s, PutNode(s2, n), n, to_, outs, cells, 0);
  }

  /** A transaction whose translation stops part way releases its buffer first and then the temporary count. */
  lemma FailedSendRestores(s: State, n: Nid, from: Pid, to_: Pid, objs: seq<Obj>, envs: seq<Env>)
    requires Inv(s) && n in s.nodes && !s.nodes[n].dead && |envs| == |objs|
    ensures Inv(SendTo(s, n))
    ensures var (s2, outs) := Translate(SendTo(s, n), from, to_, objs, envs);
            && n in s2.nodes && Wf(s2)
            && var s3 := ReleaseBuffer(s2, n, to_, outs);
               n in s3.nodes && SameCounts(s, PutNode(s3, n))
  {
    hide Inv, Translate, SendTo, PutNode, ReleaseBuffer, AllBound, Wf, Persist;
    SendToTakes(s, n);
    var cells := SentOutstanding(s, n, from, to_, objs, envs);
    var (s2, outs) := Translate(SendTo(s, n), from, to_, objs, envs);
    OutstandingInv(s, s2, n, to_, outs, cells);
    InvWf(s2);
    BufferReleased(s, s2, n, to_, outs, cells, 1);
    var s3 := ReleaseBuffer(s2, n, to_, outs);
    InvNonNegative(s, NodeTmp(n));
    assert Count(s3, NodeTmp(n)) == Count(s, NodeTmp(n)) + 1;
    PutNodeShifts(s3, n);
    forall c ensures Count(PutNode(s3, n), c) == Count(s, c) {
      assert Count(PutNode(s3, n), c) == Count(s3, c) + if c == NodeTmp(n) then -1 else 0;
    }
  }

  lemma OutstandingInv(s: State, s': State, n: Nid, to_: Pid, outs: seq<Obj>, cells: seq<Option<Cell>>)
    requires Outstanding(s, s', n, to_, outs, cells, 1)
    ensures Inv(s')
  {
  }

  /** The internal strong count follows: it is the number of strong holders, which the counts determine. */
  lemma InternalFollows(s: State, s': State, n: Nid)
    requires Inv(s) && Inv(s') && SameCounts(s, s') && n in s.nodes && n in s'.nodes
    ensures s'.nodes[n].internalStrong == s.nodes[n].internalStrong
  {
    forall k ensures k in Holders(s, n) <==> k in Holders(s', n) {
      assert Count(s', RefStrong(k)) == Count(s, RefStrong(k));
    }
    assert Holders(s, n) == Holders(s', n);
    NodeAt(s, n);
    NodeAt(s', n);
  }
}
