/** What the owner of a node is told: that others hold it, and that they do not hold it any more. */
module NodeTold {
  import opened Words
  import opened NodeRefs
  import opened ObjectRefs
  import opened Conservation
  import opened TableSteps

  /** Whoever holds a node, the owner knows, or node work that will tell it is queued. */
  ghost predicate Acquired(s: State, n: Nid)
    requires n in s.nodes
  {
    var nd := s.nodes[n];
    && (nd.internalStrong > 0 ==> nd.hasStrong || nd.queued)
    && forall k :: k in s.refs && k.n == n && s.refs[k].weak > 0 ==> nd.hasWeak || nd.queued
  }

  /** When the last strong count is gone, node work that will tell the owner is queued. */
  ghost predicate StrongReleased(s: State, n: Nid)
    requires n in s.nodes
  {
    var nd := s.nodes[n];
    nd.hasStrong && nd.internalStrong == 0 && nd.localStrong == 0 ==> nd.queued
  }

  /** So it is when nothing at all is left. */
  ghost predicate WeakReleased(s: State, n: Nid)
    requires n in s.nodes
  {
    var nd := s.nodes[n];
    nd.hasWeak && Links(s, n) == {} && nd.localWeak == 0 && nd.tmpRefs == 0 && nd.localStrong == 0 ==> nd.queued
  }

  ghost predicate Told(s: State, n: Nid)
    requires n in s.nodes
  {
    s.nodes[n].dead || (Acquired(s, n) && StrongReleased(s, n) && WeakReleased(s, n))
  }

  ghost predicate AllTold(s: State) {
    forall n :: n in s.nodes ==> Told(s, n)
  }

  ghost predicate OthersTold(s: State, n: Nid) {
    forall m :: m in s.nodes && m != n ==> Told(s, m)
  }

  lemma ToldAt(s: State, n: Nid)
    requires AllTold(s) && n in s.nodes
    ensures Told(s, n) && OthersTold(s, n)
  {
  }

  lemma ToldAll(s: State, n: Nid)
    requires OthersTold(s, n) && (n in s.nodes ==> Told(s, n))
    ensures AllTold(s)
  {
  }

  /** Nodes that a step does not touch stay told. */
  lemma TouchOne(s: State, s': State, n: Nid)
    requires OthersTold(s, n)
    requires forall m :: m in s'.nodes && m != n ==> m in s.nodes && s'.nodes[m] == s.nodes[m]
    requires forall k: Key :: k.n != n ==> (k in s.refs <==> k in s'.refs) && (k in s.refs ==> s'.refs[k] == s.refs[k])
    ensures OthersTold(s', n)
  {
    forall m | m in s'.nodes && m != n ensures Told(s', m) {
      assert Told(s, m);
      assert Links(s', m) == Links(s, m);
    }
  }

  lemma SetNodeTold(s: State, n: Nid, nd: Node)
    requires OthersTold(s, n) && n in s.nodes && Told(SetNode(s, n, nd), n)
    ensures AllTold(SetNode(s, n, nd))
  {
    hide Told;
    TouchOne(s, SetNode(s, n, nd), n);
    ToldAll(SetNode(s, n, nd), n);
  }

  lemma SameLinks(s: State, n: Nid, nd: Node, m: Nid)
    ensures Links(SetNode(s, n, nd), m) == Links(s, m)
  {
  }

  /** Local counts of living nodes are not negative, and what is held strongly is linked. */
  ghost predicate Solid(s: State, n: Nid)
    requires n in s.nodes
  {
    var nd := s.nodes[n];
    && (!nd.dead ==> nd.localStrong >= 0) && nd.localWeak >= 0 && nd.tmpRefs >= 0 && nd.internalStrong >= 0
    && (nd.internalStrong != 0 ==> Links(s, n) != {})
  }

  lemma InvSolid(s: State, n: Nid)
    requires Inv(s) && n in s.nodes
    ensures Solid(s, n)
  {
    hide Inv;
    NodeAt(s, n);
    if s.nodes[n].internalStrong != 0 {
      HolderLinked(s, n);
    }
  }

  lemma HolderLinked(s: State, n: Nid)
    requires |Holders(s, n)| != 0
    ensures Links(s, n) != {}
  {
    var k: Key :| k in Holders(s, n);
    assert k in Links(s, n);
  }

  /** A change of counts and marks of one node that leaves it told. */
  lemma MarkedTold(s: State, n: Nid, nd: Node)
    requires AllTold(s) && n in s.nodes && Solid(s, n) && nd.dead == s.nodes[n].dead && nd.hasStrong == s.nodes[n].hasStrong && nd.hasWeak == s.nodes[n].hasWeak
    requires s.nodes[n].queued ==> nd.queued
    requires nd.internalStrong > 0 ==> s.nodes[n].internalStrong > 0 || nd.hasStrong || nd.queued
    requires nd.internalStrong == 0 && nd.localStrong == 0 ==> s.nodes[n].internalStrong == 0 && s.nodes[n].localStrong == 0
    requires nd.localWeak == 0 && nd.tmpRefs == 0 && nd.localStrong == 0 && Links(s, n) == {} ==>
               s.nodes[n].localWeak == 0 && s.nodes[n].tmpRefs == 0 && s.nodes[n].localStrong == 0
    ensures AllTold(SetNode(s, n, nd))
  {
    ToldAt(s, n);
    SameLinks(s, n, nd, n);
    var s' := SetNode(s, n, nd);
    assert Told(s', n);
    SetNodeTold(s, n, nd);
  }

  lemma IncTmpTold(s: State, n: Nid)
    requires AllTold(s) && n in s.nodes && Solid(s, n)
    ensures AllTold(IncTmp(s, n)) && n in IncTmp(s, n).nodes && Solid(IncTmp(s, n), n) && IncTmp(s, n).refs == s.refs
  {
    hide AllTold, Told, Links;
    var nd := s.nodes[n].(tmpRefs := s.nodes[n].tmpRefs + 1);
    SameLinks(s, n, nd, n);
    MarkedTold(s, n, nd);
  }

  lemma NewNodeTold(s: State, n: Nid, cookie: nat)
    requires AllTold(s) && n !in s.nodes && forall k :: k in s.refs ==> k.n in s.nodes
    ensures AllTold(NewNode(s, n, cookie)) && n in NewNode(s, n, cookie).nodes && Solid(NewNode(s, n, cookie), n) && NewNode(s, n, cookie).refs == s.refs
  {
    var s' := NewNode(s, n, cookie);
    assert OthersTold(s, n);
    TouchOne(s, s', n);
    assert Told(s', n);
    ToldAll(s', n);
  }

  lemma IncNodeTold(s: State, n: Nid, strong: bool, internal: bool, listed: bool)
    requires AllTold(s) && n in s.nodes && Solid(s, n) && (strong && internal ==> Links(s, n) != {})
    ensures var (s', ok) := IncNode(s, n, strong, internal, listed);
            && AllTold(s') && n in s'.nodes && Solid(s', n) && s'.refs == s.refs
            && (ok && !strong ==> s'.nodes[n].hasWeak || s'.nodes[n].queued)
  {
    hide AllTold, Told, Links;
    var (s', ok) := IncNode(s, n, strong, internal, listed);
    var nd := s'.nodes[n];
    SameLinks(s, n, nd, n);
    if s.nodes[n].dead {
      DeadTold(s, n, nd);
    } else {
      MarkedTold(s, n, nd);
    }
    if strong && internal && !ok { assert s' == s; } else { assert s' == SetNode(s, n, nd); }
  }

  lemma DeadTold(s: State, n: Nid, nd: Node)
    requires AllTold(s) && n in s.nodes && nd.dead
    ensures AllTold(SetNode(s, n, nd))
  {
    ToldAt(s, n);
    SetNodeTold(s, n, nd);
  }

  lemma SetRefTold(s: State, k: Key, r: Ref)
    requires AllTold(s) && k.n in s.nodes
    requires r.weak > 0 && !s.nodes[k.n].dead ==> s.nodes[k.n].hasWeak || s.nodes[k.n].queued
    ensures AllTold(SetRef(s, k, r))
  {
    ToldAt(s, k.n);
    var s' := SetRef(s, k, r);
    TouchOne(s, s', k.n);
    assert k in Links(s', k.n);
    assert Told(s', k.n);
    ToldAll(s', k.n);
  }

  lemma SetRefSolid(s: State, k: Key, r: Ref)
    requires k.n in s.nodes && Solid(s, k.n)
    ensures Solid(SetRef(s, k, r), k.n)
  {
    assert k in Links(SetRef(s, k, r), k.n);
  }

  lemma IncRefTold(s: State, k: Key, strong: bool, listed: bool)
    requires AllTold(s) && k in s.refs && k.n in s.nodes && Solid(s, k.n)
    ensures var s' := IncRef(s, k, strong, listed).0; AllTold(s') && k.n in s'.nodes && Solid(s', k.n)
  {
    hide AllTold, Told, Solid, Links, IncNode;
    var r := s.refs[k];
    assert Links(s, k.n) != {} by { Linking(s, k); }
    if (if strong then r.strong else r.weak) == 0 {
      IncNodeTold(s, k.n, strong, true, listed);
      var (s1, ok) := IncNode(s, k.n, strong, true, listed);
      if ok {
        var r' := if strong then r.(strong := r.strong + 1) else r.(weak := r.weak + 1);
        assert s1.refs == s.refs;
        if r'.weak > 0 && strong { WeakKnown(s1, k); }
        SetRefTold(s1, k, r');
        SetRefSolid(s1, k, r');
      }
    } else {
      var r' := if strong then r.(strong := r.strong + 1) else r.(weak := r.weak + 1);
      if r'.weak > 0 && r.weak > 0 { WeakKnown(s, k); }
      SetRefTold(s, k, r');
      SetRefSolid(s, k, r');
    }
  }

  lemma Linking(s: State, k: Key)
    requires k in s.refs
    ensures k in Links(s, k.n)
  {
  }

  lemma WeakKnown(s: State, k: Key)
    requires AllTold(s) && k in s.refs && k.n in s.nodes
    ensures s.refs[k].weak > 0 && !s.nodes[k.n].dead ==> s.nodes[k.n].hasWeak || s.nodes[k.n].queued
  {
    assert Told(s, k.n);
  }

  lemma IncRefForNodeTold(s: State, k: Key, strong: bool, listed: bool, memOk: bool)
    requires AllTold(s) && k.n in s.nodes && Solid(s, k.n)
    ensures var s' := IncRefForNode(s, k, strong, listed, memOk).0; AllTold(s') && k.n in s'.nodes && Solid(s', k.n)
  {
    hide AllTold, Told, Solid, Links, IncRef, FirstFree, Descs;
    if k in s.refs || memOk {
      if k !in s.refs {
        var r := Ref(FirstFree(Descs(s, k.p), Base(s, k.n)), 0, 0);
        SetRefTold(s, k, r);
        SetRefSolid(s, k, r);
      }
      IncRefTold(Linked(s, k), k, strong, listed);
    }
  }

  /** A decrement makes good for the half that the lost count may have broken. */
  lemma DecNodeTold(s: State, n: Nid, strong: bool, internal: bool)
    requires OthersTold(s, n) && n in s.nodes
    requires s.nodes[n].dead || (Acquired(s, n) && if strong then WeakReleased(s, n) else StrongReleased(s, n))
    requires strong && s.nodes[n].internalStrong - (if internal then 1 else 0) != 0 ==> Links(s, n) != {}
    ensures AllTold(DecNode(s, n, strong, internal))
  {
    hide OthersTold, AllTold, Links;
    var s' := DecNode(s, n, strong, internal);
    if n in s'.nodes {
      var nd := s'.nodes[n];
      SameLinks(s, n, nd, n);
      assert s' == SetNode(s, n, nd);
      assert s'.refs == s.refs;
      assert Told(s', n);
      SetNodeTold(s, n, nd);
    } else {
      assert s' == s.(nodes := s.nodes - {n});
      TouchOne(s, s', n);
      ToldAll(s', n);
    }
  }

  lemma PutNodeTold(s: State, n: Nid)
    requires AllTold(s) && n in s.nodes
    ensures AllTold(PutNode(s, n))
  {
    hide DecNode;
    ToldAt(s, n);
    var nd := s.nodes[n].(tmpRefs := s.nodes[n].tmpRefs - 1);
    var s1 := SetNode(s, n, nd);
    SameLinks(s, n, nd, n);
    TouchOne(s, s1, n);
    DecNodeTold(s1, n, false, true);
  }

  /** A reference goes: the counts it stood for are taken from the node first. */
  lemma UnlinkTold(s: State, k: Key)
    requires AllTold(s) && k in s.refs && k.n in s.nodes
    ensures AllTold(DecNode(s.(refs := s.refs - {k}), k.n, false, true))
  {
    hide DecNode;
    ToldAt(s, k.n);
    var s1 := s.(refs := s.refs - {k});
    TouchOne(s, s1, k.n);
    DecNodeTold(s1, k.n, false, true);
  }

  lemma StrongDecTold(s: State, k: Key)
    requires AllTold(s) && k in s.refs && k.n in s.nodes
    ensures AllTold(DecNode(s, k.n, true, true))
  {
    hide DecNode;
    ToldAt(s, k.n);
    Linking(s, k);
    DecNodeTold(s, k.n, true, true);
  }

  lemma DecRefTold(s: State, k: Key, strong: bool)
    requires AllTold(s) && k in s.refs && k.n in s.nodes
    ensures AllTold(DecRef(s, k, strong))
  {
    hide AllTold, DecNode, Links;
    var r := s.refs[k];
    if (if strong then r.strong else r.weak) != 0 {
      var r1 := if strong then r.(strong := r.strong - 1) else r.(weak := r.weak - 1);
      var s1 := SetRef(s, k, r1);
      WeakKnown(s, k);
      SetRefTold(s, k, r1);
      LinkedStays(s1, k);
      StrongDecTold(s1, k);
      DecNodeRefs(s1, k.n, true, true);
      var s2 := if strong && r1.strong == 0 then DecNode(s1, k.n, true, true) else s1;
      if r1.strong == 0 && r1.weak == 0 { UnlinkTold(s2, k); }
    }
  }

  lemma CleanupTold(s: State, k: Key)
    requires AllTold(s) && k in s.refs && k.n in s.nodes && (s.refs[k].strong > 0 ==> k.n in DecNode(s, k.n, true, true).nodes)
    ensures AllTold(Cleanup(s, k))
  {
    hide AllTold, DecNode, Links;
    StrongDecTold(s, k);
    DecNodeRefs(s, k.n, true, true);
    UnlinkTold(if s.refs[k].strong > 0 then DecNode(s, k.n, true, true) else s, k);
  }

  // ---- Transactions ----

  lemma SendToTold(s: State, n: Nid)
    requires Inv(s) && AllTold(s) && n in s.nodes && !s.nodes[n].dead
    ensures AllTold(SendTo(s, n))
  {
    hide Inv, AllTold, IncTmp, IncNode, Solid, Links;
    InvSolid(s, n);
    IncTmpTold(s, n);
    IncNodeTold(IncTmp(s, n), n, true, false, false);
  }

  lemma RefsToNodes(s: State)
    requires Inv(s)
    ensures forall k :: k in s.refs ==> k.n in s.nodes
  {
  }

  lemma TranslateBinderTold(s: State, from: Pid, to_: Pid, ptr: nat, cookie: nat, strong: bool, env: Env)
    requires Inv(s) && AllTold(s)
    ensures AllTold(TranslateBinder(s, from, to_, ptr, cookie, strong, env).0)
  {
    hide Inv, AllTold, IncTmp, NewNode, PutNode, IncRefForNode, Solid, Links;
    var n := Nid(from, ptr);
    if n in s.nodes || env.nodeMem {
      var s1 := if n in s.nodes then IncTmp(s, n) else NewNode(s, n, cookie);
      RefsToNodes(s);
      if n in s.nodes { InvSolid(s, n); IncTmpTold(s, n); } else { NewNodeTold(s, n, cookie); }
      PutNodeTold(s1, n);
      IncRefForNodeTold(s1, Key(to_, n), strong, true, env.refMem);
      PutNodeTold(IncRefForNode(s1, Key(to_, n), strong, true, env.refMem).0, n);
    }
  }

  lemma TranslateHandleTold(s: State, from: Pid, to_: Pid, desc: nat, strong: bool, env: Env)
    requires Inv(s) && AllTold(s)
    ensures AllTold(TranslateHandle(s, from, to_, desc, strong, env).0)
  {
    DescsOf(s);
    hide Inv, AllTold, IncTmp, PutNode, IncRefForNode, IncNode, Solid, Links, DescsApart;
    var k := FindRef(s, from, desc);
    if k != None && !(strong && s.refs[k.value].strong == 0) {
      KeyNode(s, k.value);
      var n := k.value.n;
      var s1 := IncTmp(s, n);
      InvSolid(s, n);
      IncTmpTold(s, n);
      PutNodeTold(s1, n);
      IncNodeTold(s1, n, strong, false, false);
      PutNodeTold(IncNode(s1, n, strong, false, false).0, n);
      IncRefForNodeTold(s1, Key(to_, n), strong, false, env.refMem);
      PutNodeTold(IncRefForNode(s1, Key(to_, n), strong, false, env.refMem).0, n);
    }
  }

  /** Translating an object leaves every owner told, also when it fails. */
  lemma TranslateOneTold(s: State, from: Pid, to_: Pid, o: Obj, env: Env)
    requires Inv(s) && AllTold(s)
    ensures AllTold(TranslateOne(s, from, to_, o, env).0)
  {
    hide Inv, AllTold, TranslateBinder, TranslateHandle;
    match o
    case Binder(ptr, cookie, strong) => TranslateBinderTold(s, from, to_, ptr, cookie, strong, env);
    case Handle(desc, strong) => TranslateHandleTold(s, from, to_, desc, strong, env);
    case Other(_) =>
  }

  lemma DecLocalTold(s: State, n: Nid, strong: bool)
    requires AllTold(s) && n in s.nodes && Solid(s, n)
    ensures AllTold(DecNode(s, n, strong, false))
  {
    hide DecNode;
    ToldAt(s, n);
    DecNodeTold(s, n, strong, false);
  }

  lemma ReleaseOneTold(s: State, to_: Pid, o: Obj)
    requires Inv(s) && AllTold(s) && Wf(s)
    ensures AllTold(ReleaseOne(s, to_, o))
  {
    DescsOf(s);
    hide Inv, Wf, AllTold, IncTmp, PutNode, DecNode, DecRef, Solid, Links, DescsApart;
    match o
    case Binder(ptr, _, strong) =>
      var n := Nid(to_, ptr);
      if n in s.nodes && !s.nodes[n].dead {
        InvSolid(s, n);
        IncTmpTold(s, n);
        DecLocalTold(IncTmp(s, n), n, strong);
        var s1 := DecNode(IncTmp(s, n), n, strong, false);
        if n in s1.nodes { PutNodeTold(s1, n); }
      }
    case Handle(desc, strong) =>
      var k := FindRef(s, to_, desc);
      if k.Some? {
        KeyNode(s, k.value);
        DecRefTold(s, k.value, strong);
      }
    case Other(_) =>
  }

  // ---- Death ----

  lemma NodeReleasedTold(s: State, n: Nid)
    requires AllTold(s) && n in s.nodes && Solid(s, n)
    ensures AllTold(NodeReleased(s, n))
  {
    hide AllTold, IncTmp, PutNode, Solid, Links;
    IncTmpTold(s, n);
    var s1 := IncTmp(s, n);
    GoneTold(s1, n);
    DeadTold(s1, n, Deceased(s1.nodes[n]));
    PutNodeTold(SetNode(s1, n, Deceased(s1.nodes[n])), n);
  }

  lemma GoneTold(s: State, n: Nid)
    requires AllTold(s) && n in s.nodes
    ensures AllTold(s.(nodes := s.nodes - {n}))
  {
    ToldAt(s, n);
    var s' := s.(nodes := s.nodes - {n});
    TouchOne(s, s', n);
    ToldAll(s', n);
  }

  // ---- What a step on counts leaves alone ----

  predicate SameMarks(nd: Node, nd': Node) {
    && nd'.cookie == nd.cookie && nd'.dead == nd.dead && nd'.hasStrong == nd.hasStrong && nd'.hasWeak == nd.hasWeak
    && nd'.pendingStrong == nd.pendingStrong && nd'.pendingWeak == nd.pendingWeak
  }

  /** Cookies and marks of nodes and descriptors of references are as before, for all that is still there. */
  ghost predicate MarksKept(s: State, s': State) {
    && (forall n :: n in s.nodes && n in s'.nodes ==> SameMarks(s.nodes[n], s'.nodes[n]))
    && (forall k :: k in s.refs && k in s'.refs ==> s'.refs[k].desc == s.refs[k].desc)
  }

  lemma MarksRefl(s: State)
    ensures MarksKept(s, s)
  {
  }

  /** Nothing goes and comes back: between a state and a later one there is all that both have. */
  lemma MarksTrans(s: State, s1: State, s': State)
    requires MarksKept(s, s1) && MarksKept(s1, s')
    requires s.nodes.Keys <= s1.nodes.Keys || s'.nodes.Keys <= s1.nodes.Keys
    requires s.refs.Keys <= s1.refs.Keys || s'.refs.Keys <= s1.refs.Keys
    ensures MarksKept(s, s')
  {
    forall n | n in s.nodes && n in s'.nodes ensures SameMarks(s.nodes[n], s'.nodes[n]) { assert n in s.nodes.Keys && n in s'.nodes.Keys; }
    forall k | k in s.refs && k in s'.refs ensures s'.refs[k].desc == s.refs[k].desc { assert k in s.refs.Keys && k in s'.refs.Keys; }
  }

  lemma IncTmpMarks(s: State, n: Nid)
    requires n in s.nodes
    ensures var s' := IncTmp(s, n); MarksKept(s, s') && s'.nodes.Keys == s.nodes.Keys && s'.refs == s.refs
  {
  }

  lemma NewNodeMarks(s: State, n: Nid, cookie: nat)
    requires n !in s.nodes
    ensures var s' := NewNode(s, n, cookie); MarksKept(s, s') && s.nodes.Keys <= s'.nodes.Keys && s'.refs == s.refs
  {
  }

  /** One node with its marks kept, and nothing else. */
  lemma SetMarks(s: State, n: Nid, nd: Node)
    requires n in s.nodes && SameMarks(s.nodes[n], nd)
    ensures var s' := SetNode(s, n, nd); MarksKept(s, s') && s'.nodes.Keys == s.nodes.Keys && s'.refs == s.refs
  {
  }

  lemma IncNodeMarks(s: State, n: Nid, strong: bool, internal: bool, listed: bool)
    requires n in s.nodes
    ensures var s' := IncNode(s, n, strong, internal, listed).0; MarksKept(s, s') && s'.nodes.Keys == s.nodes.Keys && s'.refs == s.refs
  {
    hide MarksKept, SetNode;
    MarksRefl(s);
    var nd := s.nodes[n];
    if strong {
      var nd1 := if internal then nd.(internalStrong := nd.internalStrong + 1) else nd.(localStrong := nd.localStrong + 1);
      SetMarks(s, n, nd1);
      SetMarks(s, n, nd1.(queued := true));
    } else {
      var nd1 := if internal then nd else nd.(localWeak := nd.localWeak + 1);
      SetMarks(s, n, nd1);
      SetMarks(s, n, nd1.(queued := true));
    }
  }

  lemma DecNodeMarks(s: State, n: Nid, strong: bool, internal: bool)
    requires n in s.nodes
    ensures var s' := DecNode(s, n, strong, internal); MarksKept(s, s') && s'.nodes.Keys <= s.nodes.Keys && s'.refs == s.refs
  {
    hide Links, DecNode, DecLast, MarksKept, SetNode;
    DecSplit(s, n, strong, internal);
    var nd := Decremented(s.nodes[n], strong, internal);
    SetMarks(s, n, nd);
    DecLastMarks(s, n, nd);
  }

  lemma DecLastMarks(s: State, n: Nid, nd: Node)
    requires n in s.nodes && SameMarks(s.nodes[n], nd)
    ensures var s' := DecLast(s, n, nd); MarksKept(s, s') && s'.nodes.Keys <= s.nodes.Keys && s'.refs == s.refs
  {
    hide AllZero, MarksKept, SetNode;
    SetMarks(s, n, nd);
    SetMarks(s, n, nd.(queued := true));
    GoneMarks(s, n);
  }

  lemma GoneMarks(s: State, n: Nid)
    ensures var s' := s.(nodes := s.nodes - {n}); MarksKept(s, s') && s'.nodes.Keys <= s.nodes.Keys
  {
  }

  lemma PutNodeMarks(s: State, n: Nid)
    requires n in s.nodes
    ensures var s' := PutNode(s, n); MarksKept(s, s') && s'.nodes.Keys <= s.nodes.Keys && s'.refs == s.refs
  {
    hide DecNode;
    var s1 := SetNode(s, n, s.nodes[n].(tmpRefs := s.nodes[n].tmpRefs - 1));
    DecNodeMarks(s1, n, false, true);
    assert s1.nodes.Keys == s.nodes.Keys;
    MarksTrans(s, s1, PutNode(s, n));
  }

  lemma IncRefForNodeMarks(s: State, k: Key, strong: bool, listed: bool, memOk: bool)
    requires k.n in s.nodes
    ensures var s' := IncRefForNode(s, k, strong, listed, memOk).0; MarksKept(s, s') && s'.nodes.Keys == s.nodes.Keys && s.refs.Keys <= s'.refs.Keys
    ensures k in s.refs ==> var s' := IncRef(s, k, strong, listed).0; MarksKept(s, s') && s'.nodes.Keys == s.nodes.Keys && s.refs.Keys <= s'.refs.Keys
  {
    hide IncRef, FirstFree, Descs, MarksKept;
    if k in s.refs { IncRefMarks(s, k, strong, listed); }
    var s1 := Linked(s, k);
    LinkedMarks(s, k);
    IncRefMarks(s1, k, strong, listed);
    MarksRefl(s);
    MarksTrans(s, s1, IncRef(s1, k, strong, listed).0);
  }

  lemma LinkedMarks(s: State, k: Key)
    ensures var s' := Linked(s, k); MarksKept(s, s') && s'.nodes == s.nodes && s.refs.Keys <= s'.refs.Keys && k in s'.refs
  {
    hide FirstFree, Descs;
  }

  lemma IncRefMarks(s: State, k: Key, strong: bool, listed: bool)
    requires k in s.refs && k.n in s.nodes
    ensures var s' := IncRef(s, k, strong, listed).0; MarksKept(s, s') && s'.nodes.Keys == s.nodes.Keys && s.refs.Keys <= s'.refs.Keys
  {
    hide IncNode;
    IncNodeMarks(s, k.n, strong, true, listed);
  }

  lemma DecRefMarks(s: State, k: Key, strong: bool)
    requires k in s.refs && k.n in s.nodes
    ensures var s' := DecRef(s, k, strong); MarksKept(s, s') && s'.nodes.Keys <= s.nodes.Keys && s'.refs.Keys <= s.refs.Keys
  {
    hide DecNode, Links;
    var r := s.refs[k];
    if (if strong then r.strong else r.weak) != 0 {
      var r1 := if strong then r.(strong := r.strong - 1) else r.(weak := r.weak - 1);
      var s1 := SetRef(s, k, r1);
      LinkedStays(s1, k);
      DecNodeMarks(s1, k.n, true, true);
      var s2 := if strong && r1.strong == 0 then DecNode(s1, k.n, true, true) else s1;
      assert s2.refs.Keys == s.refs.Keys && s2.nodes.Keys <= s.nodes.Keys && MarksKept(s, s2);
      if r1.strong == 0 && r1.weak == 0 {
        var s3 := s2.(refs := s2.refs - {k});
        DecNodeMarks(s3, k.n, false, true);
        assert MarksKept(s, s3) && s3.nodes.Keys <= s.nodes.Keys && s3.refs.Keys <= s.refs.Keys;
        MarksTrans(s, s3, DecNode(s3, k.n, false, true));
      }
    }
  }

  lemma TranslateBinderMarks(s: State, from: Pid, to_: Pid, ptr: nat, cookie: nat, strong: bool, env: Env)
    ensures MarksKept(s, TranslateBinder(s, from, to_, ptr, cookie, strong, env).0)
  {
    hide MarksKept, IncTmp, NewNode, PutNode, IncRefForNode;
    var n := Nid(from, ptr);
    MarksRefl(s);
    if n in s.nodes || env.nodeMem {
      var s1 := if n in s.nodes then IncTmp(s, n) else NewNode(s, n, cookie);
      if n in s.nodes { IncTmpMarks(s, n); IncTmpHere(s, n); } else { NewNodeMarks(s, n, cookie); NewNodeHere(s, n, cookie); }
      PutNodeMarks(s1, n);
      MarksTrans(s, s1, PutNode(s1, n));
      var s2 := IncRefForNode(s1, Key(to_, n), strong, true, env.refMem).0;
      IncRefForNodeMarks(s1, Key(to_, n), strong, true, env.refMem);
      IncKeepsNodes(s1, Key(to_, n), strong, true, env.refMem);
      PutNodeMarks(s2, n);
      MarksTrans(s, s1, s2);
      MarksTrans(s, s2, PutNode(s2, n));
    }
  }

  lemma IncTmpHere(s: State, n: Nid)
    requires n in s.nodes
    ensures n in IncTmp(s, n).nodes
  {
  }

  lemma HandedBack(s: State, n: Nid)
    requires n in s.nodes
    ensures n in IncTmp(s, n).nodes && MarksKept(s, PutNode(IncTmp(s, n), n))
  {
    hide MarksKept, IncTmp, PutNode;
    IncTmpMarks(s, n);
    IncTmpHere(s, n);
    PutNodeMarks(IncTmp(s, n), n);
    MarksTrans(s, IncTmp(s, n), PutNode(IncTmp(s, n), n));
  }

  lemma HandedLocal(s: State, n: Nid, strong: bool)
    requires n in s.nodes
    ensures n in IncTmp(s, n).nodes
    ensures var s2 := IncNode(IncTmp(s, n), n, strong, false, false).0; n in s2.nodes && MarksKept(s, PutNode(s2, n))
  {
    hide MarksKept, IncTmp, PutNode, IncNode;
    var s1 := IncTmp(s, n);
    IncTmpMarks(s, n);
    IncTmpHere(s, n);
    var s2 := IncNode(s1, n, strong, false, false).0;
    IncNodeMarks(s1, n, strong, false, false);
    assert n in s2.nodes.Keys;
    PutNodeMarks(s2, n);
    MarksTrans(s, s1, s2);
    MarksTrans(s, s2, PutNode(s2, n));
  }

  lemma HandedRef(s: State, k: Key, strong: bool, memOk: bool)
    requires k.n in s.nodes
    ensures k.n in IncTmp(s, k.n).nodes
    ensures var s2 := IncRefForNode(IncTmp(s, k.n), k, strong, false, memOk).0; k.n in s2.nodes && MarksKept(s, PutNode(s2, k.n))
  {
    hide MarksKept, IncTmp, PutNode, IncRefForNode;
    var s1 := IncTmp(s, k.n);
    IncTmpMarks(s, k.n);
    IncTmpHere(s, k.n);
    var s2 := IncRefForNode(s1, k, strong, false, memOk).0;
    IncRefForNodeMarks(s1, k, strong, false, memOk);
    IncKeepsNodes(s1, k, strong, false, memOk);
    PutNodeMarks(s2, k.n);
    MarksTrans(s, s1, s2);
    MarksTrans(s, s2, PutNode(s2, k.n));
  }

  lemma TranslateHandleMarks(s: State, from: Pid, to_: Pid, desc: nat, strong: bool, env: Env)
    requires Inv(s)
    ensures MarksKept(s, TranslateHandle(s, from, to_, desc, strong, env).0)
  {
    DescsOf(s);
    hide Inv, MarksKept, IncTmp, PutNode, IncRefForNode, IncNode, DescsApart;
    MarksRefl(s);
    var k := FindRef(s, from, desc);
    if k != None && !(strong && s.refs[k.value].strong == 0) {
      KeyNode(s, k.value);
      var n := k.value.n;
      HandedBack(s, n);
      HandedLocal(s, n, strong);
      HandedRef(s, Key(to_, n), strong, env.refMem);
    }
  }

  lemma TranslateOneMarks(s: State, from: Pid, to_: Pid, o: Obj, env: Env)
    requires Inv(s)
    ensures MarksKept(s, TranslateOne(s, from, to_, o, env).0)
  {
    hide Inv, MarksKept, TranslateBinder, TranslateHandle;
    MarksRefl(s);
    match o
    case Binder(ptr, cookie, strong) => TranslateBinderMarks(s, from, to_, ptr, cookie, strong, env);
    case Handle(desc, strong) => TranslateHandleMarks(s, from, to_, desc, strong, env);
    case Other(_) =>
  }

  lemma ReleaseOneMarks(s: State, to_: Pid, o: Obj)
    requires Inv(s) && Wf(s)
    ensures MarksKept(s, ReleaseOne(s, to_, o))
  {
    DescsOf(s);
    hide Inv, Wf, MarksKept, IncTmp, PutNode, DecNode, DecRef, DescsApart;
    MarksRefl(s);
    match o
    case Binder(ptr, _, strong) =>
      var n := Nid(to_, ptr);
      if n in s.nodes && !s.nodes[n].dead {
        IncTmpMarks(s, n);
        IncTmpHere(s, n);
        var s0, s1 := IncTmp(s, n), DecNode(IncTmp(s, n), n, strong, false);
        DecNodeMarks(s0, n, strong, false);
        MarksTrans(s, s0, s1);
        if n in s1.nodes {
          PutNodeMarks(s1, n);
          MarksTrans(s, s1, PutNode(s1, n));
        }
      }
    case Handle(desc, strong) =>
      var k := FindRef(s, to_, desc);
      if k.Some? {
        KeyNode(s, k.value);
        DecRefMarks(s, k.value, strong);
      }
    case Other(_) =>
  }

  // ---- One local count of a node goes ----

  /** What is left of a node that lost a local strong or a temporary count, and exactly when nothing is left. */
  ghost predicate LostOne(s: State, s': State, n: Nid, nd: Node)
    requires n in s.nodes
  {
    && s'.refs == s.refs && s'.ctx == s.ctx
    && (n in s'.nodes ==> s'.nodes[n] == nd.(queued := s'.nodes[n].queued))
    && (n !in s'.nodes <==> Links(s, n) == {} && nd.internalStrong == 0 && nd.localStrong == 0 && nd.localWeak == 0 && nd.tmpRefs == 0
                            && (nd.dead || (!nd.hasStrong && !nd.hasWeak)))
    && (forall m :: m != n ==> (m in s'.nodes <==> m in s.nodes) && (m in s.nodes ==> s'.nodes[m] == s.nodes[m]))
  }

  ghost predicate OnlyNode(s: State, s': State, n: Nid) {
    && s'.refs == s.refs && s'.ctx == s.ctx
    && forall m :: m != n ==> (m in s'.nodes <==> m in s.nodes) && (m in s.nodes ==> s'.nodes[m] == s.nodes[m])
  }

  lemma DecLastIs(s: State, n: Nid, nd: Node)
    requires n in s.nodes
    ensures var s' := DecLast(s, n, nd);
            && OnlyNode(s, s', n)
            && (n in s'.nodes ==> s'.nodes[n] == nd.(queued := s'.nodes[n].queued))
            && (n !in s'.nodes <==> AllZero(s, n, nd) && (nd.dead || (!nd.hasStrong && !nd.hasWeak)))
  {
    hide AllZero;
  }

  lemma DecIs(s: State, n: Nid, strong: bool, internal: bool)
    requires n in s.nodes
    ensures var s', nd := DecNode(s, n, strong, internal), s.nodes[n];
            var nd1 := Decremented(nd, strong, internal);
            && OnlyNode(s, s', n)
            && (n in s'.nodes ==> s'.nodes[n] == nd1.(queued := s'.nodes[n].queued))
            && (n !in s'.nodes <==> Links(s, n) == {} && nd1.localStrong == 0 && nd1.localWeak == 0 && nd1.tmpRefs == 0
                                    && (strong ==> nd1.internalStrong == 0) && (nd1.dead || (!nd1.hasStrong && !nd1.hasWeak)))
  {
    hide Links, DecLast, OnlyNode, SetNode, DecNode;
    var nd := s.nodes[n];
    var nd1 := Decremented(nd, strong, internal);
    DecSplit(s, n, strong, internal);
    DecLastIs(s, n, nd1);
    SetNodeOnly(s, n, nd1);
  }

  lemma DecSplit(s: State, n: Nid, strong: bool, internal: bool)
    requires n in s.nodes
    ensures var nd := s.nodes[n];
            var nd1 := Decremented(nd, strong, internal);
            DecNode(s, n, strong, internal)
            == if (if strong then nd1.localStrong != 0 || nd1.internalStrong != 0 else nd1.localWeak != 0 || nd1.tmpRefs != 0 || Links(s, n) != {})
               then SetNode(s, n, nd1) else DecLast(s, n, nd1)
  {
    hide Links, DecLast, SetNode;
  }

  lemma SetNodeOnly(s: State, n: Nid, nd: Node)
    requires n in s.nodes
    ensures OnlyNode(s, SetNode(s, n, nd), n) && n in SetNode(s, n, nd).nodes && SetNode(s, n, nd).nodes[n] == nd
  {
  }

  lemma DecLocalExact(s: State, n: Nid, strong: bool)
    requires Inv(s) && n in s.nodes
    ensures var nd := s.nodes[n];
            LostOne(s, DecNode(s, n, strong, false), n,
                    if strong then nd.(localStrong := nd.localStrong - 1) else nd.(localWeak := nd.localWeak - 1))
  {
    hide Inv, Links;
    InvSolid(s, n);
    DecIs(s, n, strong, false);
  }

  lemma PutNodeExact(s: State, n: Nid)
    requires Inv(s) && n in s.nodes
    ensures LostOne(s, PutNode(s, n), n, s.nodes[n].(tmpRefs := s.nodes[n].tmpRefs - 1))
  {
    hide Inv, Links, DecNode;
    InvSolid(s, n);
    var nd := s.nodes[n].(tmpRefs := s.nodes[n].tmpRefs - 1);
    SameLinks(s, n, nd, n);
    DecIs(SetNode(s, n, nd), n, false, true);
  }

  // ---- New references ----

  /** A reference that is new has the smallest descriptor its process did not use, from 0 on for the context manager and
      from 1 on for any other node. */
  ghost predicate NewRefs(s: State, s': State) {
    forall k :: k in s'.refs && k !in s.refs ==> NextDesc(s, k, s'.refs[k].desc)
  }

  ghost predicate NextDesc(s: State, k: Key, d: nat) {
    var base := if s.ctx == Some(k.n) then 0 else 1;
    && base <= d && !UsesDesc(s, k.p, d)
    && forall e :: base <= e < d ==> UsesDesc(s, k.p, e)
  }

  ghost predicate UsesDesc(s: State, p: Pid, d: nat) {
    exists l :: l in s.refs && l.p == p && s.refs[l].desc == d
  }

  lemma UsedDescs(s: State, p: Pid, d: nat)
    ensures d in Descs(s, p) <==> UsesDesc(s, p, d)
  {
  }

  lemma NoNewRefs(s: State, s': State)
    requires s'.refs.Keys <= s.refs.Keys
    ensures NewRefs(s, s')
  {
    forall k | k in s'.refs ensures k in s.refs { assert k in s'.refs.Keys; }
  }

  lemma IncRefForNodeNew(s: State, k: Key, strong: bool, listed: bool, memOk: bool)
    requires k.n in s.nodes
    ensures NewRefs(s, IncRefForNode(s, k, strong, listed, memOk).0)
  {
    hide FirstFree, Descs, IncNode, NextDesc;
    var s' := IncRefForNode(s, k, strong, listed, memOk).0;
    LinkedNext(s, k);
    IncNodeMarks(Linked(s, k), k.n, strong, true, listed);
  }

  lemma LinkedNext(s: State, k: Key)
    ensures k !in s.refs ==> NextDesc(s, k, FirstFree(Descs(s, k.p), Base(s, k.n)))
  {
    hide Descs, UsesDesc;
    var d := FirstFree(Descs(s, k.p), Base(s, k.n));
    UsedDescs(s, k.p, d);
    forall e: nat | Base(s, k.n) <= e < d ensures UsesDesc(s, k.p, e) { UsedDescs(s, k.p, e); }
  }

  lemma NewRefsAfter(s: State, s1: State, s2: State, s': State)
    requires s1.refs == s.refs && s1.ctx == s.ctx && NewRefs(s1, s2) && s'.refs == s2.refs
    ensures NewRefs(s, s')
  {
    forall k | k in s'.refs && k !in s.refs ensures NextDesc(s, k, s'.refs[k].desc) {
      assert NextDesc(s1, k, s2.refs[k].desc);
      forall p, d ensures UsesDesc(s1, p, d) <==> UsesDesc(s, p, d) { }
    }
  }

  lemma TranslateOneNew(s: State, from: Pid, to_: Pid, o: Obj, env: Env)
    requires Inv(s)
    ensures NewRefs(s, TranslateOne(s, from, to_, o, env).0)
  {
    hide Inv, NewRefs, TranslateBinder, TranslateHandle;
    match o
    case Binder(ptr, cookie, strong) => TranslateBinderNew(s, from, to_, ptr, cookie, strong, env);
    case Handle(desc, strong) => TranslateHandleNew(s, from, to_, desc, strong, env);
    case Other(_) => NoNewRefs(s, s);
  }

  lemma TranslateBinderNew(s: State, from: Pid, to_: Pid, ptr: nat, cookie: nat, strong: bool, env: Env)
    ensures NewRefs(s, TranslateBinder(s, from, to_, ptr, cookie, strong, env).0)
  {
    hide NewRefs, IncTmp, NewNode, PutNode, IncRefForNode;
    NoNewRefs(s, s);
    var n := Nid(from, ptr);
    if n in s.nodes || env.nodeMem {
      var s1 := if n in s.nodes then IncTmp(s, n) else NewNode(s, n, cookie);
      if n in s.nodes { IncTmpMarks(s, n); IncTmpHere(s, n); IncTmpCtx(s, n); } else { NewNodeMarks(s, n, cookie); NewNodeHere(s, n, cookie); NewNodeCtx(s, n, cookie); }
      PutNodeMarks(s1, n);
      NoNewRefs(s, PutNode(s1, n));
      HandedNew(s, s1, Key(to_, n), strong, true, env.refMem);
    }
  }

  lemma TranslateHandleNew(s: State, from: Pid, to_: Pid, desc: nat, strong: bool, env: Env)
    requires Inv(s)
    ensures NewRefs(s, TranslateHandle(s, from, to_, desc, strong, env).0)
  {
    DescsOf(s);
    hide Inv, NewRefs, IncTmp, PutNode, IncRefForNode, IncNode, DescsApart;
    NoNewRefs(s, s);
    var k := FindRef(s, from, desc);
    if k != None && !(strong && s.refs[k.value].strong == 0) {
      KeyNode(s, k.value);
      var n := k.value.n;
      var s1 := IncTmp(s, n);
      IncTmpMarks(s, n);
      IncTmpHere(s, n);
      IncTmpCtx(s, n);
      PutNodeMarks(s1, n);
      NoNewRefs(s, PutNode(s1, n));
      IncNodeMarks(s1, n, strong, false, false);
      assert n in IncNode(s1, n, strong, false, false).0.nodes.Keys;
      PutNodeMarks(IncNode(s1, n, strong, false, false).0, n);
      NoNewRefs(s, PutNode(IncNode(s1, n, strong, false, false).0, n));
      HandedNew(s, s1, Key(to_, n), strong, false, env.refMem);
    }
  }

  lemma IncTmpCtx(s: State, n: Nid)
    requires n in s.nodes
    ensures IncTmp(s, n).ctx == s.ctx
  {
  }

  lemma NewNodeCtx(s: State, n: Nid, cookie: nat)
    ensures NewNode(s, n, cookie).ctx == s.ctx
  {
  }

  lemma HandedNew(s: State, s1: State, k: Key, strong: bool, listed: bool, memOk: bool)
    requires s1.refs == s.refs && s1.ctx == s.ctx && k.n in s1.nodes
    ensures var s2 := IncRefForNode(s1, k, strong, listed, memOk).0; k.n in s2.nodes && NewRefs(s, PutNode(s2, k.n))
  {
    hide IncRefForNode, PutNode, NewRefs;
    IncRefForNodeNew(s1, k, strong, listed, memOk);
    IncKeepsNodes(s1, k, strong, listed, memOk);
    var s2 := IncRefForNode(s1, k, strong, listed, memOk).0;
    PutNodeMarks(s2, k.n);
    NewRefsAfter(s, s1, s2, PutNode(s2, k.n));
  }
}
