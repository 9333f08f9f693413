/** Safety of the shared-memory RPC: the invariant of module Rpc holds after every schedule. */
module RpcSafety {
  import opened Options
  import opened Rpc
  import opened Arith

  lemma LogAppend<Mem, Req, Res>(
    cfg: Config<Mem, Req, Res>, log: seq<Event<Req, Res>>, e: Event<Req, Res>, c: nat, w: nat)
    ensures Served(log + [e], c) == Served(log, c) + if e.client == c then [e.req] else []
    ensures Results(log + [e], c) == Results(log, c) + if e.client == c then [e.res] else []
    ensures MemAfter(cfg, log + [e], w) ==
            if e.worker == w then cfg.handle(MemAfter(cfg, log, w), e.req).0 else MemAfter(cfg, log, w)
  {
    assert (log + [e])[..|log|] == log;
  }

  lemma {:induction false} NothingServed<Req, Res>(log: seq<Event<Req, Res>>, c: nat)
    requires forall e | e in log :: e.client != c
    ensures Served(log, c) == []
  {
    if log != [] {
      var rest := log[..|log| - 1];
      assert forall e | e in rest :: e in log;
      assert log[|log| - 1] in log;
      NothingServed(rest, c);
    }
  }

  lemma SetBitAt<Mem, Req, Res>(cfg: Config<Mem, Req, Res>, s: State<Mem, Req, Res>, r: nat, value: bool, q: nat)
    requires Shape(cfg, s) && r < MAX_REGION_NUM && q < MAX_REGION_NUM
    ensures Bit(SetBit(s, r, value).bitmap, q) == if q == r then value else Bit(s.bitmap, q)
  {
  }

  /** A client whose own fields, region and share of the log stay put keeps its invariant. */
  lemma ClientFrame<Mem, Req, Res>(
    cfg: Config<Mem, Req, Res>, s: State<Mem, Req, Res>, s': State<Mem, Req, Res>, d: nat)
    requires cfg.Valid() && Shape(cfg, s) && Shape(cfg, s')
    requires d < |s.clients| && ClientInv(cfg, s, d)
    requires s'.clients[d] == s.clients[d]
    requires Served(s'.log, d) == Served(s.log, d) && Results(s'.log, d) == Results(s.log, d)
    requires forall e | e in s'.log && e.client == d :: e in s.log
    requires var h := Holds(s.clients[d].pc); h.Some? ==>
      && Bit(s'.bitmap, h.value)
      && s'.regions[h.value] == s.regions[h.value]
      && (s'.workers[h.value % cfg.workers].pc == Computed(h.value) <==>
          s.workers[h.value % cfg.workers].pc == Computed(h.value))
    ensures ClientInv(cfg, s', d)
  {
  }

  /** What a client step may touch: its own record, the region it holds, that region's bit. */
  ghost predicate ClientTouches<Mem, Req, Res>(
    cfg: Config<Mem, Req, Res>, s: State<Mem, Req, Res>, s': State<Mem, Req, Res>, c: nat)
  {
    && Shape(cfg, s) && Shape(cfg, s') && c < |s.clients|
    && s'.workers == s.workers && s'.log == s.log
    && (forall d | 0 <= d < |s.clients| && d != c :: s'.clients[d] == s.clients[d])
    && (forall q | 0 <= q < MAX_REGION_NUM && s'.regions[q] != s.regions[q] ::
          Holds(s.clients[c].pc) == Some(q) && s.regions[q].status != SENT)
    && (forall q | 0 <= q < MAX_REGION_NUM && Bit(s'.bitmap, q) != Bit(s.bitmap, q) ::
          if Bit(s.bitmap, q) then Holds(s.clients[c].pc) == Some(q) else s'.clients[c].pc == Claimed(q))
    && (Holds(s'.clients[c].pc).Some? && Holds(s'.clients[c].pc) != Holds(s.clients[c].pc) ==>
          !Bit(s.bitmap, s'.clients[c].pc.r))
    && (Holds(s.clients[c].pc).Some? && Holds(s'.clients[c].pc) != Holds(s.clients[c].pc) ==>
          s'.regions[s.clients[c].pc.r].status == NONE && !Bit(s'.bitmap, s.clients[c].pc.r))
  }

  lemma OthersKeep<Mem, Req, Res>(
    cfg: Config<Mem, Req, Res>, s: State<Mem, Req, Res>, s': State<Mem, Req, Res>, c: nat, d: nat)
    requires Inv(cfg, s) && ClientTouches(cfg, s, s', c) && d < |s.clients| && d != c
    ensures ClientInv(cfg, s', d)
  {
    var h := Holds(s.clients[d].pc);
    if h.Some? {
      assert ClientInv(cfg, s, d);
      assert Bit(s.bitmap, h.value);
      assert h != Holds(s.clients[c].pc);
      assert Bit(s'.bitmap, h.value);
    }
    ClientFrame(cfg, s, s', d);
  }

  /** If the stepping client keeps its own invariant, the whole invariant is kept. */
  lemma ClientStepKeeps<Mem, Req, Res>(
    cfg: Config<Mem, Req, Res>, s: State<Mem, Req, Res>, s': State<Mem, Req, Res>, c: nat)
    requires Inv(cfg, s) && ClientTouches(cfg, s, s', c) && ClientInv(cfg, s', c)
    ensures Inv(cfg, s')
  {
    forall d | 0 <= d < |s'.clients| ensures ClientInv(cfg, s', d) {
      if d != c { OthersKeep(cfg, s, s', c, d); }
    }
    forall d | 0 <= d < |s.clients| && d != c
      ensures Holds(s'.clients[c].pc).Some? ==> Holds(s'.clients[c].pc) != Holds(s'.clients[d].pc)
    {
      assert ClientInv(cfg, s, d);
    }
    assert Exclusive(s');
    forall r | 0 <= r < MAX_REGION_NUM && s'.regions[r].status != NONE ensures Held(s', r) {
      if s.regions[r].status != NONE {
        var d :| 0 <= d < |s.clients| && Holds(s.clients[d].pc) == Some(r);
        assert Holds(s'.clients[d].pc) == Some(r);
      } else {
        assert Holds(s'.clients[c].pc) == Some(r);
      }
    }
    forall r | 0 <= r < MAX_REGION_NUM && Bit(s'.bitmap, r) ensures Held(s', r) {
      SetBitsStayHeld(cfg, s, s', c, r);
    }
    forall w | 0 <= w < |s'.workers| ensures WorkerInv(cfg, s', w) {
      assert WorkerInv(cfg, s, w);
    }
  }

  lemma SetBitsStayHeld<Mem, Req, Res>(
    cfg: Config<Mem, Req, Res>, s: State<Mem, Req, Res>, s': State<Mem, Req, Res>, c: nat, r: nat)
    requires Inv(cfg, s) && ClientTouches(cfg, s, s', c) && r < MAX_REGION_NUM && Bit(s'.bitmap, r)
    ensures Held(s', r)
  {
    if Bit(s.bitmap, r) {
      var d :| 0 <= d < |s.clients| && Holds(s.clients[d].pc) == Some(r);
      assert Holds(s'.clients[d].pc) == Some(r);
    } else {
      assert Holds(s'.clients[c].pc) == Some(r);
    }
  }

  /** A region whose bit is clear has no holder and status NONE. */
  lemma ClearBitIsFree<Mem, Req, Res>(cfg: Config<Mem, Req, Res>, s: State<Mem, Req, Res>, r: nat)
    requires Inv(cfg, s) && r < MAX_REGION_NUM && !Bit(s.bitmap, r)
    ensures !Held(s, r) && s.regions[r].status == NONE
  {
    forall d | 0 <= d < |s.clients| ensures Holds(s.clients[d].pc) != Some(r) {
      assert ClientInv(cfg, s, d);
    }
  }

  lemma ClaimKeeps<Mem, Req, Res>(cfg: Config<Mem, Req, Res>, s: State<Mem, Req, Res>, c: nat)
    requires Inv(cfg, s) && c < |s.clients| && s.clients[c].pc.Loaded?
    ensures Inv(cfg, ClientGo(cfg, s, c))
    ensures var r := s.clients[c].pc.r;
      if ClientGo(cfg, s, c).clients[c].pc == Claimed(r) then !Held(s, r) && s.regions[r].status == NONE
      else ClientGo(cfg, s, c) == Move(s, c, Scan(r))
  {
    var s', r := ClientGo(cfg, s, c), s.clients[c].pc.r;
    assert ClientInv(cfg, s, c);
    forall q | 0 <= q < MAX_REGION_NUM
      ensures s'.clients[c].pc.Claimed? ==> Bit(s'.bitmap, q) == (q == r || Bit(s.bitmap, q))
    {
      SetBitAt(cfg, s, r, true, q);
    }
    if s'.clients[c].pc.Claimed? {
      assert !Bit(s.bitmap, r);
      ClearBitIsFree(cfg, s, r);
      NothingServed(s.log, c);
    }
    ClientStepKeeps(cfg, s, s', c);
  }

  lemma ReleaseKeeps<Mem, Req, Res>(cfg: Config<Mem, Req, Res>, s: State<Mem, Req, Res>, c: nat)
    requires Inv(cfg, s) && c < |s.clients| && s.clients[c].pc.Releasing?
    ensures Inv(cfg, ClientGo(cfg, s, c))
    ensures var s', r := ClientGo(cfg, s, c), s.clients[c].pc.r; !Bit(s'.bitmap, r) && !Held(s', r)
  {
    var s', r := ClientGo(cfg, s, c), s.clients[c].pc.r;
    assert ClientInv(cfg, s, c);
    forall q | 0 <= q < MAX_REGION_NUM ensures Bit(s'.bitmap, q) == (q != r && Bit(s.bitmap, q)) {
      SetBitAt(cfg, s, r, false, q);
    }
    ClientStepKeeps(cfg, s, s', c);
    ClearBitIsFree(cfg, s', r);
  }

  lemma ScanKeeps<Mem, Req, Res>(cfg: Config<Mem, Req, Res>, s: State<Mem, Req, Res>, c: nat)
    requires Inv(cfg, s) && c < |s.clients|
    requires var pc := s.clients[c].pc; pc.Absent? || pc.Scan? || pc.Claimed?
    ensures Inv(cfg, ClientGo(cfg, s, c))
  {
    var s' := ClientGo(cfg, s, c);
    assert ClientInv(cfg, s, c);
    NothingServed(s.log, c);
    assert ClientInv(cfg, s', c);
    ClientStepKeeps(cfg, s, s', c);
  }

  lemma SendKeeps<Mem, Req, Res>(cfg: Config<Mem, Req, Res>, s: State<Mem, Req, Res>, c: nat)
    requires Inv(cfg, s) && c < |s.clients| && s.clients[c].pc.Serialised?
    ensures Inv(cfg, ClientGo(cfg, s, c))
  {
    var s', r := ClientGo(cfg, s, c), s.clients[c].pc.r;
    assert ClientInv(cfg, s, c);
    assert ClientInv(cfg, s', c) by {
      assert WorkerInv(cfg, s, r % cfg.workers);
      assert Behind(s', c);
    }
    assert ClientTouches(cfg, s, s', c);
    ClientStepKeeps(cfg, s, s', c);
  }

  lemma WaitKeeps<Mem, Req, Res>(cfg: Config<Mem, Req, Res>, s: State<Mem, Req, Res>, c: nat)
    requires Inv(cfg, s) && c < |s.clients| && s.clients[c].pc.Waiting?
    ensures Inv(cfg, ClientGo(cfg, s, c))
  {
    var s' := ClientGo(cfg, s, c);
    assert ClientInv(cfg, s, c);
    assert ClientInv(cfg, s', c);
    assert ClientTouches(cfg, s, s', c);
    ClientStepKeeps(cfg, s, s', c);
  }

  /** The result copied out is the next one of the log. */
  ghost predicate CopiesNext<Mem, Req, Res>(s: State<Mem, Req, Res>, s': State<Mem, Req, Res>, c: nat)
    requires c < |s.clients| && c < |s'.clients|
  {
    var results, got := Results(s.log, c), s.clients[c].got;
    |got| < |results| && s'.clients[c].got == got + [results[|got|]]
  }

  lemma FetchKeepsOwn<Mem, Req, Res>(cfg: Config<Mem, Req, Res>, s: State<Mem, Req, Res>, c: nat)
    requires Inv(cfg, s) && c < |s.clients| && s.clients[c].pc.Fetching?
    ensures ClientInv(cfg, ClientGo(cfg, s, c), c) && CopiesNext(s, ClientGo(cfg, s, c), c)
  {
    var results, n := Results(s.log, c), |s.clients[c].got|;
    assert ClientInv(cfg, s, c);
    assert results[..n + 1] == results[..n] + [results[n]];
  }

  lemma FetchKeeps<Mem, Req, Res>(cfg: Config<Mem, Req, Res>, s: State<Mem, Req, Res>, c: nat)
    requires Inv(cfg, s) && c < |s.clients| && s.clients[c].pc.Fetching?
    ensures Inv(cfg, ClientGo(cfg, s, c)) && CopiesNext(s, ClientGo(cfg, s, c), c)
  {
    var s' := ClientGo(cfg, s, c);
    FetchKeepsOwn(cfg, s, c);
    assert ClientTouches(cfg, s, s', c);
    ClientStepKeeps(cfg, s, s', c);
  }

  lemma ResetKeeps<Mem, Req, Res>(cfg: Config<Mem, Req, Res>, s: State<Mem, Req, Res>, c: nat)
    requires Inv(cfg, s) && c < |s.clients|
    requires var pc := s.clients[c].pc; pc.Copied? || pc.Quitting?
    ensures Inv(cfg, ClientGo(cfg, s, c))
  {
    var s' := ClientGo(cfg, s, c);
    assert ClientInv(cfg, s, c);
    assert ClientInv(cfg, s', c);
    ClientStepKeeps(cfg, s, s', c);
  }

  lemma ClientGoKeeps<Mem, Req, Res>(cfg: Config<Mem, Req, Res>, s: State<Mem, Req, Res>, c: nat)
    requires Inv(cfg, s) && c < |s.clients|
    ensures Inv(cfg, ClientGo(cfg, s, c))
  {
    match s.clients[c].pc
    case Loaded(_, _) => ClaimKeeps(cfg, s, c);
    case Releasing(_) => ReleaseKeeps(cfg, s, c);
    case Absent => ScanKeeps(cfg, s, c);
    case Scan(_) => ScanKeeps(cfg, s, c);
    case Claimed(_) => ScanKeeps(cfg, s, c);
    case Copied(_) => ResetKeeps(cfg, s, c);
    case Quitting(_) => ResetKeeps(cfg, s, c);
    case Ready(_) =>
    case Gone =>
    case Serialised(_, _) => SendKeeps(cfg, s, c);
    case Waiting(_) => WaitKeeps(cfg, s, c);
    case Fetching(_) => FetchKeeps(cfg, s, c);
  }

  lemma ClientKeeps<Mem, Req, Res>(
    cfg: Config<Mem, Req, Res>, s: State<Mem, Req, Res>, c: nat, action: Action<Req>)
    requires Inv(cfg, s) && c < |s.clients|
    ensures Inv(cfg, ClientStepTo(cfg, s, c, action))
  {
    if action.Go? {
      ClientGoKeeps(cfg, s, c);
    } else if action.Submit? {
      SubmitKeeps(cfg, s, c, action.q);
    } else {
      QuitKeeps(cfg, s, c);
    }
  }

  lemma SubmitKeeps<Mem, Req, Res>(cfg: Config<Mem, Req, Res>, s: State<Mem, Req, Res>, c: nat, q: Req)
    requires Inv(cfg, s) && c < |s.clients|
    ensures Inv(cfg, ClientStepTo(cfg, s, c, Submit(q)))
  {
    var s' := ClientStepTo(cfg, s, c, Submit(q));
    assert ClientInv(cfg, s, c);
    assert ClientInv(cfg, s', c);
    ClientStepKeeps(cfg, s, s', c);
  }

  lemma QuitKeepsOwn<Mem, Req, Res>(cfg: Config<Mem, Req, Res>, s: State<Mem, Req, Res>, c: nat)
    requires Inv(cfg, s) && c < |s.clients|
    ensures ClientInv(cfg, ClientStepTo(cfg, s, c, Quit), c)
  {
    assert ClientInv(cfg, s, c);
    if s.clients[c].pc.Scan? { NothingServed(s.log, c); }
  }

  lemma QuitKeeps<Mem, Req, Res>(cfg: Config<Mem, Req, Res>, s: State<Mem, Req, Res>, c: nat)
    requires Inv(cfg, s) && c < |s.clients|
    ensures Inv(cfg, ClientStepTo(cfg, s, c, Quit))
  {
    var s' := ClientStepTo(cfg, s, c, Quit);
    QuitKeepsOwn(cfg, s, c);
    assert ClientTouches(cfg, s, s', c);
    ClientStepKeeps(cfg, s, s', c);
  }

  // ------------------------------------------------------------------------------------------
  // Worker steps
  // ------------------------------------------------------------------------------------------

  /** A request in status SENT is the last one of the client that holds the region. */
  lemma SentIsInFlight<Mem, Req, Res>(cfg: Config<Mem, Req, Res>, s: State<Mem, Req, Res>, r: nat)
    returns (c: nat)
    requires Inv(cfg, s) && r < MAX_REGION_NUM && s.regions[r].status == SENT
    ensures c < |s.clients| && Holds(s.clients[c].pc) == Some(r) && InFlight(cfg, s, c, r)
    ensures s.clients[c].pc.Waiting? || s.clients[c].pc.Quitting?
  {
    assert Held(s, r);
    c :| 0 <= c < |s.clients| && Holds(s.clients[c].pc) == Some(r);
    assert ClientInv(cfg, s, c);
  }

  /** If a worker step keeps the clients' and its own invariant, the whole invariant is kept. */
  lemma WorkerStepKeeps<Mem, Req, Res>(
    cfg: Config<Mem, Req, Res>, s: State<Mem, Req, Res>, s': State<Mem, Req, Res>, w: nat)
    requires Inv(cfg, s) && Shape(cfg, s') && w < |s.workers|
    requires s'.clients == s.clients && s'.bitmap == s.bitmap
    requires forall q | 0 <= q < MAX_REGION_NUM && q % cfg.workers != w :: s'.regions[q] == s.regions[q]
    requires forall q | 0 <= q < MAX_REGION_NUM :: s.regions[q].status == NONE ==> s'.regions[q].status == NONE
    requires forall v | 0 <= v < |s.workers| && v != w ::
      s'.workers[v] == s.workers[v] && MemAfter(cfg, s'.log, v) == MemAfter(cfg, s.log, v)
    requires forall c | 0 <= c < |s'.clients| :: ClientInv(cfg, s', c)
    requires WorkerInv(cfg, s', w)
    requires LogHonest(cfg, s'.log) && OneRegionPerClient(s'.log)
    ensures Inv(cfg, s')
  {
    forall v | 0 <= v < |s'.workers| ensures WorkerInv(cfg, s', v) {
      assert WorkerInv(cfg, s, v);
    }
    forall q | 0 <= q < MAX_REGION_NUM && (s'.regions[q].status != NONE || Bit(s'.bitmap, q)) ensures Held(s', q) {
      assert Held(s, q);
    }
  }

  lemma PollKeepsClient<Mem, Req, Res>(cfg: Config<Mem, Req, Res>, s: State<Mem, Req, Res>, w: nat, c: nat)
    requires Inv(cfg, s) && w < |s.workers| && (s.workers[w].pc.Poll? || s.workers[w].pc.Seen?)
    requires c < |s.clients|
    ensures ClientInv(cfg, WorkerGo(cfg, s, w), c)
  {
    assert ClientInv(cfg, s, c);
    ClientFrame(cfg, s, WorkerGo(cfg, s, w), c);
  }

  lemma NextRegionCongruent(w: nat, r: nat, count: nat)
    requires w < count <= MAX_REGION_NUM && r < MAX_REGION_NUM && r % count == w
    ensures NextRegion(w, r, count) % count == w
  {
    DivModOf(w, count, 0, w);
    DivModOf(r + count, count, r / count + 1, w);
  }

  lemma PollKeeps<Mem, Req, Res>(cfg: Config<Mem, Req, Res>, s: State<Mem, Req, Res>, w: nat)
    requires Inv(cfg, s) && w < |s.workers| && (s.workers[w].pc.Poll? || s.workers[w].pc.Seen?)
    ensures Inv(cfg, WorkerGo(cfg, s, w))
  {
    var s' := WorkerGo(cfg, s, w);
    assert WorkerInv(cfg, s, w);
    NextRegionCongruent(w, s.workers[w].pc.r, cfg.workers);
    assert WorkerInv(cfg, s', w);
    forall c | 0 <= c < |s'.clients| ensures ClientInv(cfg, s', c) {
      PollKeepsClient(cfg, s, w, c);
    }
    WorkerStepKeeps(cfg, s, s', w);
  }

  lemma FinishKeepsClient<Mem, Req, Res>(cfg: Config<Mem, Req, Res>, s: State<Mem, Req, Res>, w: nat, d: nat)
    requires Inv(cfg, s) && w < |s.workers| && s.workers[w].pc.Computed? && d < |s.clients|
    ensures ClientInv(cfg, WorkerGo(cfg, s, w), d)
  {
    var s', r := WorkerGo(cfg, s, w), s.workers[w].pc.r;
    assert WorkerInv(cfg, s, w);
    var c := SentIsInFlight(cfg, s, r);
    assert ClientInv(cfg, s, d);
    if d != c { ClientFrame(cfg, s, s', d); }
  }

  lemma FinishKeeps<Mem, Req, Res>(cfg: Config<Mem, Req, Res>, s: State<Mem, Req, Res>, w: nat)
    requires Inv(cfg, s) && w < |s.workers| && s.workers[w].pc.Computed?
    ensures Inv(cfg, WorkerGo(cfg, s, w))
  {
    var s' := WorkerGo(cfg, s, w);
    assert WorkerInv(cfg, s, w);
    DivModOf(w, cfg.workers, 0, w);
    assert WorkerInv(cfg, s', w);
    forall d | 0 <= d < |s'.clients| ensures ClientInv(cfg, s', d) {
      FinishKeepsClient(cfg, s, w, d);
    }
    WorkerStepKeeps(cfg, s, s', w);
  }

  /** Handling a request answers it: the result in the buffer is the last one of the log. */
  lemma HandleAnswers<Mem, Req, Res>(cfg: Config<Mem, Req, Res>, s: State<Mem, Req, Res>, w: nat, c: nat)
    requires Inv(cfg, s) && w < |s.workers| && s.workers[w].pc.Accepted? && c < |s.clients|
    requires var r := s.workers[w].pc.r; Holds(s.clients[c].pc) == Some(r) && InFlight(cfg, s, c, r)
    ensures InFlight(cfg, WorkerGo(cfg, s, w), c, s.workers[w].pc.r)
    ensures IsPrefix(Results(s.log, c), Results(WorkerGo(cfg, s, w).log, c))
  {
    var s', r := WorkerGo(cfg, s, w), s.workers[w].pc.r;
    assert WorkerInv(cfg, s, w);
    var sent, e := s.clients[c].sent, s'.log[|s.log|];
    assert s'.log == s.log + [e] && e.client == c && e.req == sent[|sent| - 1];
    assert Behind(s, c) && s'.workers[r % cfg.workers].pc == Computed(r);
    AnswerIsLast(cfg, s.log, e, c, sent);
  }

  lemma AnswerIsLast<Mem, Req, Res>(
    cfg: Config<Mem, Req, Res>, log: seq<Event<Req, Res>>, e: Event<Req, Res>, c: nat, sent: seq<Req>)
    requires |sent| > 0 && Served(log, c) == sent[..|sent| - 1] && e.client == c && e.req == sent[|sent| - 1]
    ensures Served(log + [e], c) == sent && IsPrefix(Results(log, c), Results(log + [e], c))
    ensures Results(log + [e], c)[|sent| - 1] == e.res
  {
    LogAppend(cfg, log, e, c, 0);
  }

  /** The client whose request a worker handles. */
  lemma HandleKeepsSender<Mem, Req, Res>(cfg: Config<Mem, Req, Res>, s: State<Mem, Req, Res>, w: nat, c: nat)
    requires Inv(cfg, s) && w < |s.workers| && s.workers[w].pc.Accepted? && c < |s.clients|
    requires var r := s.workers[w].pc.r; Holds(s.clients[c].pc) == Some(r) && InFlight(cfg, s, c, r)
    ensures ClientInv(cfg, WorkerGo(cfg, s, w), c)
  {
    assert WorkerInv(cfg, s, w) && ClientInv(cfg, s, c);
    HandleAnswers(cfg, s, w, c);
  }

  lemma HandleKeepsBystander<Mem, Req, Res>(
    cfg: Config<Mem, Req, Res>, s: State<Mem, Req, Res>, w: nat, c: nat, d: nat)
    requires Inv(cfg, s) && w < |s.workers| && s.workers[w].pc.Accepted? && c < |s.clients|
    requires var r := s.workers[w].pc.r; Holds(s.clients[c].pc) == Some(r) && InFlight(cfg, s, c, r)
    requires d < |s.clients| && d != c
    ensures ClientInv(cfg, WorkerGo(cfg, s, w), d)
  {
    var s' := WorkerGo(cfg, s, w);
    assert WorkerInv(cfg, s, w);
    LogAppend(cfg, s.log, s'.log[|s.log|], d, w);
    assert ClientInv(cfg, s, d);
    ClientFrame(cfg, s, s', d);
  }

  lemma HandleKeepsClient<Mem, Req, Res>(cfg: Config<Mem, Req, Res>, s: State<Mem, Req, Res>, w: nat, d: nat)
    requires Inv(cfg, s) && w < |s.workers| && s.workers[w].pc.Accepted? && d < |s.clients|
    ensures ClientInv(cfg, WorkerGo(cfg, s, w), d)
  {
    assert WorkerInv(cfg, s, w);
    var c := SentIsInFlight(cfg, s, s.workers[w].pc.r);
    if d == c { HandleKeepsSender(cfg, s, w, c); } else { HandleKeepsBystander(cfg, s, w, c, d); }
  }

  lemma HandleKeepsMemory<Mem, Req, Res>(cfg: Config<Mem, Req, Res>, s: State<Mem, Req, Res>, w: nat, v: nat)
    requires Inv(cfg, s) && w < |s.workers| && s.workers[w].pc.Accepted? && v < |s.workers|
    requires s.regions[s.workers[w].pc.r].req.Some?
    ensures var s' := WorkerGo(cfg, s, w);
      MemAfter(cfg, s'.log, v) == if v == w then s'.workers[w].mem else MemAfter(cfg, s.log, v)
  {
    assert WorkerInv(cfg, s, w);
    LogAppend(cfg, s.log, WorkerGo(cfg, s, w).log[|s.log|], 0, v);
  }

  lemma HandleKeeps<Mem, Req, Res>(cfg: Config<Mem, Req, Res>, s: State<Mem, Req, Res>, w: nat)
    requires Inv(cfg, s) && w < |s.workers| && s.workers[w].pc.Accepted?
    ensures Inv(cfg, WorkerGo(cfg, s, w))
    ensures |WorkerGo(cfg, s, w).log| == |s.log| + 1 && WorkerGo(cfg, s, w).log[..|s.log|] == s.log
  {
    var s', r := WorkerGo(cfg, s, w), s.workers[w].pc.r;
    assert WorkerInv(cfg, s, w);
    var c := SentIsInFlight(cfg, s, r);
    forall d | 0 <= d < |s'.clients| ensures ClientInv(cfg, s', d) {
      HandleKeepsClient(cfg, s, w, d);
    }
    forall v | 0 <= v < |s'.workers|
      ensures MemAfter(cfg, s'.log, v) == if v == w then s'.workers[w].mem else MemAfter(cfg, s.log, v)
    {
      HandleKeepsMemory(cfg, s, w, v);
    }
    HandleKeepsLog(cfg, s, w, c);
    assert WorkerInv(cfg, s', w);
    WorkerStepKeeps(cfg, s, s', w);
  }

  lemma HandleKeepsLog<Mem, Req, Res>(cfg: Config<Mem, Req, Res>, s: State<Mem, Req, Res>, w: nat, c: nat)
    requires Inv(cfg, s) && w < |s.workers| && s.workers[w].pc.Accepted?
    requires c < |s.clients| && Holds(s.clients[c].pc) == Some(s.workers[w].pc.r)
    requires s.regions[s.workers[w].pc.r].req.Some? && s.regions[s.workers[w].pc.r].req.value.client == c
    ensures var s' := WorkerGo(cfg, s, w); LogHonest(cfg, s'.log) && OneRegionPerClient(s'.log)
  {
    var log' := WorkerGo(cfg, s, w).log;
    assert WorkerInv(cfg, s, w) && ClientInv(cfg, s, c);
    forall i | 0 <= i < |log'|
      ensures log'[i].worker == log'[i].region % cfg.workers
      ensures log'[i].res == cfg.handle(MemAfter(cfg, log'[..i], log'[i].worker), log'[i].req).1
    {
      assert log'[..i] == s.log[..i];
      if i == |s.log| { assert log'[..i] == s.log; }
    }
  }

  lemma ApplyKeeps<Mem, Req, Res>(cfg: Config<Mem, Req, Res>, s: State<Mem, Req, Res>, step: Step<Req>)
    requires Inv(cfg, s)
    ensures Inv(cfg, Apply(cfg, s, step))
  {
    match step
    case ClientStep(c, action) =>
      if c < |s.clients| { ClientKeeps(cfg, s, c, action); }
    case WorkerStep(w) =>
      if w < |s.workers| {
        match s.workers[w].pc
        case Accepted(_) => HandleKeeps(cfg, s, w);
        case Computed(_) => FinishKeeps(cfg, s, w);
        case _ => PollKeeps(cfg, s, w);
      }
  }

  lemma InitialInv<Mem, Req, Res>(cfg: Config<Mem, Req, Res>)
    requires cfg.Valid()
    ensures Inv(cfg, Initial(cfg))
  {
    var s := Initial(cfg);
    forall c | 0 <= c < |s.clients| ensures ClientInv(cfg, s, c) {
      assert s.clients[c] == Client(Absent, [], []);
    }
    forall w | 0 <= w < |s.workers| ensures WorkerInv(cfg, s, w) {
      DivModOf(w, cfg.workers, 0, w);
    }
  }

  lemma {:induction false} ExecInv<Mem, Req, Res>(cfg: Config<Mem, Req, Res>, schedule: seq<Step<Req>>)
    requires cfg.Valid()
    ensures Inv(cfg, Exec(cfg, schedule))
  {
    if schedule == [] {
      InitialInv(cfg);
    } else {
      ExecInv(cfg, schedule[..|schedule| - 1]);
      ApplyKeeps(cfg, Exec(cfg, schedule[..|schedule| - 1]), schedule[|schedule| - 1]);
    }
  }

  // ------------------------------------------------------------------------------------------
  // Main results
  // ------------------------------------------------------------------------------------------

  /** Mutual exclusion: in no schedule do two clients hold the same region; a region is taken in the
      bitmap if and only if some client holds it, and one that is free has status NONE. */
  lemma RegionsAreExclusive<Mem, Req, Res>(cfg: Config<Mem, Req, Res>, schedule: seq<Step<Req>>)
    requires cfg.Valid()
    ensures var s := Exec(cfg, schedule);
      && (forall c, d | 0 <= c < d < |s.clients| && Holds(s.clients[c].pc).Some? ::
            Holds(s.clients[c].pc) != Holds(s.clients[d].pc))
      && (forall r | 0 <= r < MAX_REGION_NUM :: Bit(s.bitmap, r) <==> Held(s, r))
      && (forall r | 0 <= r < MAX_REGION_NUM && !Bit(s.bitmap, r) :: s.regions[r].status == NONE)
  {
    var s := Exec(cfg, schedule);
    ExecInv(cfg, schedule);
    forall r | 0 <= r < MAX_REGION_NUM && !Bit(s.bitmap, r)
      ensures s.regions[r].status == NONE && !Held(s, r)
    {
      ClearBitIsFree(cfg, s, r);
    }
  }

  /** Exactly once: in every schedule the workers handled exactly the requests each client sent, in
      order and once each, except possibly the one in flight; every client between two calls has
      all its answers; and the k-th result copied out was computed from the k-th request sent, by
      worker (region mod W) in the memory that worker had at that moment. */
  lemma RequestsAreHandledExactlyOnce<Mem, Req, Res>(
    cfg: Config<Mem, Req, Res>, schedule: seq<Step<Req>>, c: nat)
    requires cfg.Valid() && c < cfg.clients
    ensures var s := Exec(cfg, schedule); var C := s.clients[c];
      && (CaughtUp(s, c) || Behind(s, c))
      && IsPrefix(C.got, Results(s.log, c))
      && (C.pc.Ready? ==> CaughtUp(s, c) && |C.got| == |C.sent|)
      && LogHonest(cfg, s.log)
  {
    ExecInv(cfg, schedule);
    var s := Exec(cfg, schedule);
    assert ClientInv(cfg, s, c);
    NothingServedIfFresh(s, c);
  }

  lemma NothingServedIfFresh<Mem, Req, Res>(s: State<Mem, Req, Res>, c: nat)
    requires c < |s.clients|
    ensures Fresh(s, c) ==> CaughtUp(s, c)
  {
    if Fresh(s, c) { NothingServed(s.log, c); }
  }

  /** Affinity: all requests of one client are handled by one worker. */
  lemma OneWorkerPerClient<Mem, Req, Res>(
    cfg: Config<Mem, Req, Res>, schedule: seq<Step<Req>>, i: nat, j: nat)
    requires cfg.Valid()
    requires i < |Exec(cfg, schedule).log| && j < |Exec(cfg, schedule).log|
    requires Exec(cfg, schedule).log[i].client == Exec(cfg, schedule).log[j].client
    ensures Exec(cfg, schedule).log[i].worker == Exec(cfg, schedule).log[j].worker
  {
    ExecInv(cfg, schedule);
  }
}
