/** What the shared-memory RPC can do: every sequence of calls by every number of clients up to the
    number of regions is the log of some schedule. */
module RpcReach {
  import opened Arith
  import opened Options
  import opened Rpc
  import opened RpcSafety

  function Run<Mem, Req, Res>(cfg: Config<Mem, Req, Res>, s: State<Mem, Req, Res>, steps: seq<Step<Req>>)
    : (s': State<Mem, Req, Res>)
    requires cfg.Valid() && Shape(cfg, s)
    ensures Shape(cfg, s')
    decreases steps
  {
    if steps == [] then s else Run(cfg, Apply(cfg, s, steps[0]), steps[1..])
  }

  lemma {:induction false} RunConcat<Mem, Req, Res>(
    cfg: Config<Mem, Req, Res>, s: State<Mem, Req, Res>, a: seq<Step<Req>>, b: seq<Step<Req>>)
    requires cfg.Valid() && Shape(cfg, s)
    ensures Run(cfg, s, a + b) == Run(cfg, Run(cfg, s, a), b)
    decreases a
  {
    if a == [] {
      assert a + b == b;
    } else {
      assert (a + b)[1..] == a[1..] + b;
      RunConcat(cfg, Apply(cfg, s, a[0]), a[1..], b);
    }
  }

  lemma RunOne<Mem, Req, Res>(cfg: Config<Mem, Req, Res>, s: State<Mem, Req, Res>, a: seq<Step<Req>>, step: Step<Req>)
    requires cfg.Valid() && Shape(cfg, s)
    ensures Run(cfg, s, a + [step]) == Apply(cfg, Run(cfg, s, a), step)
  {
    RunConcat(cfg, s, a, [step]);
    assert [step][1..] == [];
  }

  lemma {:induction false} ExecRun<Mem, Req, Res>(
    cfg: Config<Mem, Req, Res>, schedule: seq<Step<Req>>, steps: seq<Step<Req>>)
    requires cfg.Valid()
    ensures Exec(cfg, schedule + steps) == Run(cfg, Exec(cfg, schedule), steps)
    decreases steps
  {
    if steps == [] {
      assert schedule + steps == schedule;
    } else {
      var first := schedule + [steps[0]];
      assert first[..|schedule|] == schedule && schedule + steps == first + steps[1..];
      ExecRun(cfg, first, steps[1..]);
    }
  }

  // ------------------------------------------------------------------------------------------
  // Connecting
  // ------------------------------------------------------------------------------------------

  /** The first `n` clients hold the regions of their own numbers, no call is under way. */
  ghost predicate Connected<Mem, Req, Res>(cfg: Config<Mem, Req, Res>, s: State<Mem, Req, Res>, n: nat) {
    && Shape(cfg, s) && n <= |s.clients| && n <= MAX_REGION_NUM
    && (forall c | 0 <= c < n :: s.clients[c].pc == Ready(c))
    && (forall c | n <= c < |s.clients| :: s.clients[c].pc == Absent)
    && (forall r | 0 <= r < MAX_REGION_NUM :: Bit(s.bitmap, r) <==> r < n)
    && (forall r | 0 <= r < MAX_REGION_NUM :: s.regions[r].status == NONE)
    && (forall w | 0 <= w < |s.workers| :: s.workers[w].pc == Poll(w))
  }

  lemma InitialConnected<Mem, Req, Res>(cfg: Config<Mem, Req, Res>)
    requires cfg.Valid()
    ensures Connected(cfg, Initial(cfg), 0)
  {
  }

  /** The claim loop passes over the regions that are taken. */
  lemma {:induction false} ScanUp<Mem, Req, Res>(
    cfg: Config<Mem, Req, Res>, s: State<Mem, Req, Res>, c: nat, from: nat, top: nat) returns (steps: seq<Step<Req>>)
    requires cfg.Valid() && Shape(cfg, s) && c < |s.clients| && s.clients[c].pc == Scan(from)
    requires from <= top <= MAX_REGION_NUM && forall r | from <= r < top :: Bit(s.bitmap, r)
    ensures Run(cfg, s, steps) == Move(s, c, Scan(top))
    decreases top - from
  {
    if from == top {
      steps := [];
      assert Move(s, c, Scan(from)).clients == s.clients;
    } else {
      var before := ScanUp(cfg, s, c, from, top - 1);
      RunOne(cfg, s, before, ClientStep(c, Go));
      steps := before + [ClientStep(c, Go)];
      assert Bit(s.bitmap, top - 1);
    }
  }

  lemma Connect<Mem, Req, Res>(cfg: Config<Mem, Req, Res>, s: State<Mem, Req, Res>, n: nat)
    returns (steps: seq<Step<Req>>)
    requires cfg.Valid() && Connected(cfg, s, n) && n < |s.clients| && n < MAX_REGION_NUM
    ensures Connected(cfg, Run(cfg, s, steps), n + 1)
    ensures Run(cfg, s, steps).log == s.log && Run(cfg, s, steps).workers == s.workers
  {
    var go: Step<Req> := ClientStep(n, Go);
    var s1 := Apply(cfg, s, go);
    RunOne(cfg, s, [], go);
    var scan := ScanUp(cfg, s1, n, 0, n);
    RunConcat(cfg, s, [go], scan);
    assert [] + [go] == [go];
    var a := [go] + scan;
    var s2 := Move(s1, n, Scan(n));
    RunOne(cfg, s, a, go);
    RunOne(cfg, s, a + [go], go);
    RunOne(cfg, s, a + [go] + [go], go);
    steps := a + [go] + [go] + [go];
    ClaimFree(cfg, s2, n, n);
  }

  /** Three steps claim a free region and clear its buffer. */
  lemma ClaimFree<Mem, Req, Res>(cfg: Config<Mem, Req, Res>, s: State<Mem, Req, Res>, c: nat, r: nat)
    requires cfg.Valid() && Shape(cfg, s) && c < |s.clients| && s.clients[c].pc == Scan(r) && r < MAX_REGION_NUM
    requires !Bit(s.bitmap, r)
    ensures var go: Step<Req> := ClientStep(c, Go);
      var s' := Apply(cfg, Apply(cfg, Apply(cfg, s, go), go), go);
      && s'.clients == s.clients[c := s.clients[c].(pc := Ready(r))]
      && s'.regions == s.regions[r := Region(NONE, None, None)]
      && s'.workers == s.workers && s'.log == s.log
      && forall q | 0 <= q < MAX_REGION_NUM :: Bit(s'.bitmap, q) == (q == r || Bit(s.bitmap, q))
  {
    forall q | 0 <= q < MAX_REGION_NUM ensures Bit(SetBit(s, r, true).bitmap, q) == (q == r || Bit(s.bitmap, q)) {
      SetBitAt(cfg, s, r, true, q);
    }
  }

  lemma {:induction false} ConnectAll<Mem, Req, Res>(cfg: Config<Mem, Req, Res>, n: nat)
    returns (steps: seq<Step<Req>>)
    requires cfg.Valid() && n <= cfg.clients && n <= MAX_REGION_NUM
    ensures Connected(cfg, Run(cfg, Initial(cfg), steps), n)
    ensures Run(cfg, Initial(cfg), steps).log == []
  {
    if n == 0 {
      InitialConnected(cfg);
      steps := [];
    } else {
      var before := ConnectAll(cfg, n - 1);
      var last := Connect(cfg, Run(cfg, Initial(cfg), before), n - 1);
      RunConcat(cfg, Initial(cfg), before, last);
      steps := before + last;
    }
  }

  // ------------------------------------------------------------------------------------------
  // Calling
  // ------------------------------------------------------------------------------------------

  function WorkerAt<Mem, Req, Res>(s: State<Mem, Req, Res>, w: nat, pc: WorkerPc): State<Mem, Req, Res>
    requires w < |s.workers|
  {
    s.(workers := s.workers[w := s.workers[w].(pc := pc)])
  }

  /** From one of its regions without a request the worker goes on to the next, or starts again. */
  lemma PollOn<Mem, Req, Res>(cfg: Config<Mem, Req, Res>, s: State<Mem, Req, Res>, w: nat, r: nat)
    returns (steps: seq<Step<Req>>)
    requires cfg.Valid() && Shape(cfg, s) && w < |s.workers| && s.workers[w].pc == Poll(r)
    requires s.regions[r].status != SENT
    ensures Run(cfg, s, steps) ==
      WorkerAt(s, w, Poll(if r + cfg.workers < MAX_REGION_NUM then r + cfg.workers else w))
  {
    RunOne(cfg, s, [], WorkerStep(w));
    steps := [] + [WorkerStep(w)];
    if Bit(s.bitmap, r) {
      RunOne(cfg, s, steps, WorkerStep(w));
      steps := steps + [WorkerStep(w)];
    }
  }

  /** The worker passes over the regions without a request up to a region of its own. */
  lemma {:induction false} PollUp<Mem, Req, Res>(
    cfg: Config<Mem, Req, Res>, s: State<Mem, Req, Res>, w: nat, from: nat, top: nat) returns (steps: seq<Step<Req>>)
    requires cfg.Valid() && Shape(cfg, s) && w < |s.workers| && s.workers[w].pc == Poll(from)
    requires from <= top < MAX_REGION_NUM && from % cfg.workers == top % cfg.workers
    requires forall r | from <= r < top :: s.regions[r].status != SENT
    ensures Run(cfg, s, steps) == WorkerAt(s, w, Poll(top))
    decreases top - from
  {
    if from == top {
      steps := [];
      assert WorkerAt(s, w, Poll(from)).workers == s.workers;
    } else {
      CongruentApart(from, top, cfg.workers);
      var on := PollOn(cfg, s, w, from);
      var s1 := Run(cfg, s, on);
      var rest := PollUp(cfg, s1, w, from + cfg.workers, top);
      RunConcat(cfg, s, on, rest);
      steps := on + rest;
      assert WorkerAt(s1, w, Poll(top)).workers == WorkerAt(s, w, Poll(top)).workers;
    }
  }

  lemma CongruentApart(x: nat, y: nat, d: nat)
    requires 0 < d && x < y && x % d == y % d
    ensures x + d <= y && (x + d) % d == y % d
  {
    DivModOf(x + d, d, x / d + 1, x % d);
    if y - x < d { ModShift(x, y - x, d); }
  }

  /** The worker goes round: past its last region it starts again at its first. */
  lemma {:induction false} PollAround<Mem, Req, Res>(
    cfg: Config<Mem, Req, Res>, s: State<Mem, Req, Res>, w: nat, from: nat) returns (steps: seq<Step<Req>>)
    requires cfg.Valid() && Shape(cfg, s) && w < |s.workers| && s.workers[w].pc == Poll(from)
    requires from < MAX_REGION_NUM && forall r | from <= r < MAX_REGION_NUM :: s.regions[r].status != SENT
    ensures Run(cfg, s, steps) == WorkerAt(s, w, Poll(w))
    decreases MAX_REGION_NUM - from
  {
    steps := PollOn(cfg, s, w, from);
    if from + cfg.workers < MAX_REGION_NUM {
      var s1 := Run(cfg, s, steps);
      var rest := PollAround(cfg, s1, w, from + cfg.workers);
      RunConcat(cfg, s, steps, rest);
      steps := steps + rest;
      assert WorkerAt(s1, w, Poll(w)).workers == WorkerAt(s, w, Poll(w)).workers;
    }
  }

  /** Wherever a worker is in its scan, it comes to the one region that has a request. */
  lemma PollTo<Mem, Req, Res>(cfg: Config<Mem, Req, Res>, s: State<Mem, Req, Res>, w: nat, from: nat, top: nat)
    returns (steps: seq<Step<Req>>)
    requires cfg.Valid() && Shape(cfg, s) && w < |s.workers| && s.workers[w].pc == Poll(from)
    requires from < MAX_REGION_NUM && top < MAX_REGION_NUM && from % cfg.workers == top % cfg.workers == w
    requires forall r | 0 <= r < MAX_REGION_NUM && r != top :: s.regions[r].status != SENT
    ensures Run(cfg, s, steps) == WorkerAt(s, w, Poll(top))
  {
    if from <= top {
      steps := PollUp(cfg, s, w, from, top);
    } else {
      steps := PollAround(cfg, s, w, from);
      var s1 := Run(cfg, s, steps);
      DivModOf(w, cfg.workers, 0, w);
      if w > top { CongruentApart(top, w, cfg.workers); }
      var rest := PollUp(cfg, s1, w, w, top);
      RunConcat(cfg, s, steps, rest);
      steps := steps + rest;
      assert WorkerAt(s1, w, Poll(top)).workers == WorkerAt(s, w, Poll(top)).workers;
    }
  }

  /** A client writes its request and marks it SENT. */
  lemma Send<Mem, Req, Res>(cfg: Config<Mem, Req, Res>, s: State<Mem, Req, Res>, c: nat, r: nat, q: Req)
    requires cfg.Valid() && Shape(cfg, s) && c < |s.clients| && s.clients[c].pc == Ready(r)
    ensures Run(cfg, s, [ClientStep(c, Submit(q))] + [ClientStep(c, Go)]) ==
      s.(regions := s.regions[r := Region(SENT, Some(Tagged(c, q)), s.regions[r].res)],
         clients := s.clients[c := Client(Waiting(r), s.clients[c].sent + [q], s.clients[c].got)])
  {
    RunOne(cfg, s, [], ClientStep(c, Submit(q)));
    assert [] + [ClientStep(c, Submit(q))] == [ClientStep(c, Submit(q))];
    RunOne(cfg, s, [ClientStep(c, Submit(q))], ClientStep(c, Go));
  }

  function Four<T>(x: T): seq<T> { [x] + [x] + [x] + [x] }

  lemma RunFour<Mem, Req, Res>(cfg: Config<Mem, Req, Res>, s: State<Mem, Req, Res>, x: Step<Req>)
    requires cfg.Valid() && Shape(cfg, s)
    ensures Run(cfg, s, Four(x)) == Apply(cfg, Apply(cfg, Apply(cfg, Apply(cfg, s, x), x), x), x)
  {
    RunOne(cfg, s, [], x);
    assert [] + [x] == [x];
    RunOne(cfg, s, [x], x);
    RunOne(cfg, s, [x] + [x], x);
    RunOne(cfg, s, [x] + [x] + [x], x);
  }

  /** The worker at a region with a request handles it. */
  lemma Serve<Mem, Req, Res>(cfg: Config<Mem, Req, Res>, s: State<Mem, Req, Res>, w: nat, r: nat, c: nat, q: Req)
    requires cfg.Valid() && Shape(cfg, s) && w < |s.workers| && s.workers[w].pc == Poll(r) && Bit(s.bitmap, r)
    requires s.regions[r].status == SENT && s.regions[r].req == Some(Tagged(c, q))
    ensures var (mem, res) := cfg.handle(s.workers[w].mem, q);
      Run(cfg, s, Four(WorkerStep(w))) ==
        s.(regions := s.regions[r := Region(DONE, Some(Tagged(c, q)), Some(res))],
           workers := s.workers[w := Worker(Poll(w), mem)],
           log := s.log + [Event(w, r, c, q, res)])
  {
    RunFour(cfg, s, WorkerStep(w));
  }

  /** The client sees DONE, copies the result and resets the status; a fourth step changes nothing. */
  lemma Receive<Mem, Req, Res>(cfg: Config<Mem, Req, Res>, s: State<Mem, Req, Res>, c: nat, r: nat, res: Res)
    requires cfg.Valid() && Shape(cfg, s) && c < |s.clients| && s.clients[c].pc == Waiting(r)
    requires s.regions[r].status == DONE && s.regions[r].res == Some(res)
    ensures Run(cfg, s, Four(ClientStep(c, Go))) ==
      s.(regions := s.regions[r := s.regions[r].(status := NONE)],
         clients := s.clients[c := Client(Ready(r), s.clients[c].sent, s.clients[c].got + [res])])
  {
    RunFour(cfg, s, ClientStep(c, Go));
  }

  /** A whole call, with nobody else stepping. */
  lemma Call<Mem, Req, Res>(cfg: Config<Mem, Req, Res>, s: State<Mem, Req, Res>, n: nat, c: nat, q: Req)
    returns (steps: seq<Step<Req>>)
    requires cfg.Valid() && Connected(cfg, s, n) && c < n
    ensures Connected(cfg, Run(cfg, s, steps), n)
    ensures var w := c % cfg.workers;
      Run(cfg, s, steps).log == s.log + [Event(w, c, c, q, cfg.handle(s.workers[w].mem, q).1)]
  {
    var w := c % cfg.workers;
    var send: seq<Step<Req>> := [ClientStep(c, Submit(q))] + [ClientStep(c, Go)];
    Send(cfg, s, c, c, q);
    var s1 := Run(cfg, s, send);
    DivModOf(w, cfg.workers, 0, w);
    var poll := PollTo(cfg, s1, w, w, c);
    RunConcat(cfg, s, send, poll);
    var s2 := WorkerAt(s1, w, Poll(c));
    Serve(cfg, s2, w, c, c, q);
    RunConcat(cfg, s, send + poll, Four(WorkerStep(w)));
    var s3 := Run(cfg, s2, Four(WorkerStep(w)));
    Receive(cfg, s3, c, c, cfg.handle(s.workers[w].mem, q).1);
    RunConcat(cfg, s, send + poll + Four(WorkerStep(w)), Four(ClientStep(c, Go)));
    steps := send + poll + Four(WorkerStep(w)) + Four(ClientStep(c, Go));
  }

  /** Event `i` of the log is call `i`: client and request, and the region and worker that follow. */
  ghost predicate LogIs<Mem, Req, Res>(
    cfg: Config<Mem, Req, Res>, log: seq<Event<Req, Res>>, calls: seq<(nat, Req)>)
    requires cfg.Valid()
  {
    |log| == |calls| && forall i | 0 <= i < |calls| ::
      log[i].client == log[i].region == calls[i].0 && log[i].worker == calls[i].0 % cfg.workers
      && log[i].req == calls[i].1
  }

  lemma {:induction false} CallAll<Mem, Req, Res>(
    cfg: Config<Mem, Req, Res>, s: State<Mem, Req, Res>, n: nat, calls: seq<(nat, Req)>)
    returns (steps: seq<Step<Req>>)
    requires cfg.Valid() && Connected(cfg, s, n) && s.log == [] && forall i | 0 <= i < |calls| :: calls[i].0 < n
    ensures Connected(cfg, Run(cfg, s, steps), n) && LogIs(cfg, Run(cfg, s, steps).log, calls)
  {
    if calls == [] {
      steps := [];
    } else {
      var front, last := calls[..|calls| - 1], calls[|calls| - 1];
      var before := CallAll(cfg, s, n, front);
      var call := Call(cfg, Run(cfg, s, before), n, last.0, last.1);
      RunConcat(cfg, s, before, call);
      steps := before + call;
      assert forall i | 0 <= i < |front| :: front[i] == calls[i];
    }
  }

  /** Every sequence of calls can happen: some schedule makes its log exactly these calls, in this
      order, each handled by its worker with an honest result. */
  lemma EveryCallSequenceIsReachable<Mem, Req, Res>(cfg: Config<Mem, Req, Res>, calls: seq<(nat, Req)>)
    returns (schedule: seq<Step<Req>>)
    requires cfg.Valid() && cfg.clients <= MAX_REGION_NUM
    requires forall i | 0 <= i < |calls| :: calls[i].0 < cfg.clients
    ensures LogIs(cfg, Exec(cfg, schedule).log, calls) && LogHonest(cfg, Exec(cfg, schedule).log)
  {
    var connect := ConnectAll(cfg, cfg.clients);
    var s := Run(cfg, Initial(cfg), connect);
    var rest := CallAll(cfg, s, cfg.clients, calls);
    RunConcat(cfg, Initial(cfg), connect, rest);
    schedule := connect + rest;
    ExecRun(cfg, [], schedule);
    assert [] + schedule == schedule;
    ExecInv(cfg, schedule);
  }

  // ------------------------------------------------------------------------------------------
  // Leaving
  // ------------------------------------------------------------------------------------------

  /** The points at which the exit handler of a client may fire. */
  predicate CanQuit<Req>(pc: ClientPc<Req>) {
    pc.Ready? || pc.Serialised? || pc.Waiting? || pc.Fetching? || pc.Copied?
  }

  function QuitSteps<Req>(c: nat): seq<Step<Req>> {
    [ClientStep(c, Quit)] + [ClientStep(c, Go)] + [ClientStep(c, Go)]
  }

  /** A client that leaves, at whatever point, frees its region and nothing else, if no request of
      its own is waiting to be handled; while one is, it waits. */
  lemma Leave<Mem, Req, Res>(cfg: Config<Mem, Req, Res>, s: State<Mem, Req, Res>, c: nat)
    requires cfg.Valid() && Shape(cfg, s) && c < |s.clients| && CanQuit(s.clients[c].pc)
    ensures var r := s.clients[c].pc.r; var s' := Run(cfg, s, QuitSteps(c));
      if s.regions[r].status == SENT then s' == Move(s, c, Quitting(r))
      else
        && s'.clients == s.clients[c := s.clients[c].(pc := Gone)]
        && s'.regions == s.regions[r := s.regions[r].(status := NONE)]
        && s'.workers == s.workers && s'.log == s.log
        && forall q | 0 <= q < MAX_REGION_NUM :: Bit(s'.bitmap, q) <==> q != r && Bit(s.bitmap, q)
  {
    var quit, go: Step<Req> := ClientStep(c, Quit), ClientStep(c, Go);
    RunOne(cfg, s, [], quit);
    assert [] + [quit] == [quit];
    RunOne(cfg, s, [quit], go);
    RunOne(cfg, s, [quit] + [go], go);
    QuitIsAlwaysOpen(cfg, s, c);
    Free(cfg, Move(s, c, Quitting(s.clients[c].pc.r)), c);
  }

  lemma QuitIsAlwaysOpen<Mem, Req, Res>(cfg: Config<Mem, Req, Res>, s: State<Mem, Req, Res>, c: nat)
    requires cfg.Valid() && Shape(cfg, s) && c < |s.clients| && CanQuit(s.clients[c].pc)
    ensures Apply(cfg, s, ClientStep(c, Quit)) == Move(s, c, Quitting(s.clients[c].pc.r))
  {
  }

  /** A client gives up waiting for a region only at the end of a scan. */
  lemma GivesUpAfterAScan<Mem, Req, Res>(cfg: Config<Mem, Req, Res>, s: State<Mem, Req, Res>, c: nat)
    requires cfg.Valid() && Shape(cfg, s) && c < |s.clients| && s.clients[c].pc.Scan?
    ensures Apply(cfg, s, ClientStep(c, Quit)) == if s.clients[c].pc.r == MAX_REGION_NUM then Move(s, c, Gone) else s
  {
  }

  /** The two steps of freeBuffer. */
  lemma Free<Mem, Req, Res>(cfg: Config<Mem, Req, Res>, s: State<Mem, Req, Res>, c: nat)
    requires cfg.Valid() && Shape(cfg, s) && c < |s.clients| && s.clients[c].pc.Quitting?
    ensures var r, go: Step<Req> := s.clients[c].pc.r, ClientStep(c, Go);
      var s' := Apply(cfg, Apply(cfg, s, go), go);
      if s.regions[r].status == SENT then s' == s
      else
        && s'.clients == s.clients[c := s.clients[c].(pc := Gone)]
        && s'.regions == s.regions[r := s.regions[r].(status := NONE)]
        && s'.workers == s.workers && s'.log == s.log
        && forall q | 0 <= q < MAX_REGION_NUM :: Bit(s'.bitmap, q) <==> q != r && Bit(s.bitmap, q)
  {
    var r := s.clients[c].pc.r;
    forall q | 0 <= q < MAX_REGION_NUM
      ensures Bit(SetBit(s, r, false).bitmap, q) <==> q != r && Bit(s.bitmap, q)
    {
      SetBitAt(cfg, s, r, false, q);
    }
  }

  /** A client that scans a full bitmap, wherever it is, claims the one region that is free. */
  lemma WaiterClaims<Mem, Req, Res>(cfg: Config<Mem, Req, Res>, s: State<Mem, Req, Res>, d: nat, r: nat)
    returns (steps: seq<Step<Req>>)
    requires cfg.Valid() && Shape(cfg, s) && d < |s.clients| && s.clients[d].pc.Scan? && r < MAX_REGION_NUM
    requires forall q | 0 <= q < MAX_REGION_NUM :: Bit(s.bitmap, q) <==> q != r
    ensures Run(cfg, s, steps).clients == s.clients[d := s.clients[d].(pc := Ready(r))]
    ensures forall q | 0 <= q < MAX_REGION_NUM :: Bit(Run(cfg, s, steps).bitmap, q)
  {
    var go: Step<Req> := ClientStep(d, Go);
    var at := s.clients[d].pc.r;
    if at <= r {
      steps := ScanUp(cfg, s, d, at, r);
    } else {
      steps := ScanUp(cfg, s, d, at, MAX_REGION_NUM);
      RunOne(cfg, s, steps, go);
      steps := steps + [go];
      var s1 := Run(cfg, s, steps);
      assert s1 == Move(s, d, Scan(0));
      var again := ScanUp(cfg, s1, d, 0, r);
      RunConcat(cfg, s, steps, again);
      steps := steps + again;
    }
    var s2 := Run(cfg, s, steps);
    assert s2 == Move(s, d, Scan(r));
    RunOne(cfg, s, steps, go);
    RunOne(cfg, s, steps + [go], go);
    RunOne(cfg, s, steps + [go] + [go], go);
    steps := steps + [go] + [go] + [go];
    ClaimFree(cfg, s2, d, r);
  }

  /** The next session: with every region taken, the region of a client that leaves goes to a client
      that is waiting for one. */
  lemma FreedRegionIsClaimed<Mem, Req, Res>(cfg: Config<Mem, Req, Res>, s: State<Mem, Req, Res>, c: nat, d: nat)
    returns (steps: seq<Step<Req>>)
    requires cfg.Valid() && Shape(cfg, s) && c < |s.clients| && d < |s.clients|
    requires CanQuit(s.clients[c].pc) && s.clients[d].pc.Scan? && s.regions[s.clients[c].pc.r].status != SENT
    requires forall q | 0 <= q < MAX_REGION_NUM :: Bit(s.bitmap, q)
    ensures var s', r := Run(cfg, s, steps), s.clients[c].pc.r;
      && s'.clients[c].pc == Gone && s'.clients[d].pc == Ready(r)
      && forall q | 0 <= q < MAX_REGION_NUM :: Bit(s'.bitmap, q)
  {
    Leave(cfg, s, c);
    var s1 := Run(cfg, s, QuitSteps(c));
    var claim := WaiterClaims(cfg, s1, d, s.clients[c].pc.r);
    RunConcat(cfg, s, QuitSteps(c), claim);
    steps := QuitSteps(c) + claim;
  }
}
