/** The shared-memory RPC between PostgreSQL backends (clients) and forked workers of the
    trusted server: regions are claimed by compare-and-swap on a bitmap, requests travel through
    a NONE/SENT/DONE handshake, and worker `w` of `W` serves the regions congruent to `w` modulo
    `W`. There are no locks: the model is a state machine whose schedules interleave single
    shared-memory accesses, and every guarantee is proved for every schedule.

    Sources: src/include/rpc.h, src/integrity_zone/client.cpp, src/privacy_zone/server.cpp. */
module Rpc {
  import opened Options

  const SHM_SIZE: nat := 540 * 1024 * 1024
  const META_REQ_SIZE: nat := 1024
  const REQ_REGION_SIZE: nat := 1024 * 1024
  const MAX_REGION_NUM: nat := 539
  const BITMAP_BITS: nat := 64
  const BITMAP_SIZE: nat := 9

  function RegionOffset(n: nat): (offset: nat) {
    META_REQ_SIZE + REQ_REGION_SIZE * n
  }

  /** The regions lie inside the shared memory, behind the control block, and do not overlap; no
      further region would fit, and the bitmap has one bit for each. */
  lemma RegionsAreDisjoint(m: nat, n: nat)
    requires m < n < MAX_REGION_NUM
    ensures MAX_REGION_NUM == (SHM_SIZE - META_REQ_SIZE) / REQ_REGION_SIZE
    ensures BITMAP_SIZE == (MAX_REGION_NUM + BITMAP_BITS - 1) / BITMAP_BITS
    ensures RegionOffset(0) == META_REQ_SIZE <= RegionOffset(m)
    ensures RegionOffset(m) + REQ_REGION_SIZE == RegionOffset(m + 1) <= RegionOffset(n)
    ensures RegionOffset(n) + REQ_REGION_SIZE <= SHM_SIZE
  {
    assert REQ_REGION_SIZE * (m + 1) <= REQ_REGION_SIZE * n <= REQ_REGION_SIZE * 538;
  }

  // ------------------------------------------------------------------------------------------
  // State
  // ------------------------------------------------------------------------------------------

  /** One 64-bit bitmap word, bit by bit. */
  type Word = seq<bool>

  datatype Status = NONE | SENT | DONE

  /** The request carries, for the proof only, the client that serialised it. */
  datatype Tagged<Req> = Tagged(client: nat, req: Req)

  datatype Region<Req, Res> =
    Region(status: Status, req: Option<Tagged<Req>>, res: Option<Res>)

  datatype ClientPc<Req> =
    | Absent                          // shared memory not yet mapped
    | Scan(r: nat)                    // claim loop: about to load the word of region r
    | Loaded(r: nat, word: Word)       // claim loop: about to compare-and-swap
    | Claimed(r: nat)                 // bit set, buffer not yet cleared
    | Ready(r: nat)                   // no request in flight
    | Serialised(r: nat, q: Req)      // request written, status not yet SENT
    | Waiting(r: nat)                 // spinning until DONE
    | Fetching(r: nat)                // DONE seen, result not yet copied
    | Copied(r: nat)                  // result copied, status not yet NONE
    | Quitting(r: nat)                // freeBuffer: spinning while SENT
    | Releasing(r: nat)               // freeBuffer: status NONE, bit still set
    | Gone

  /** `sent` and `got` record what the client marked SENT and what it copied out. */
  datatype Client<Req, Res> = Client(pc: ClientPc<Req>, sent: seq<Req>, got: seq<Res>)

  datatype WorkerPc =
    | Poll(r: nat)       // about to read the bitmap bit of region r
    | Seen(r: nat)       // bit was set, about to read the status
    | Accepted(r: nat)   // status was SENT, request not yet handled
    | Computed(r: nat)   // result written, status not yet DONE

  datatype Worker<Mem> = Worker(pc: WorkerPc, mem: Mem)

  /** One handled request, in the order in which the workers handled them. */
  datatype Event<Req, Res> = Event(worker: nat, region: nat, client: nat, req: Req, res: Res)

  datatype State<Mem, Req, Res> = State(
    bitmap: seq<Word>,
    regions: seq<Region<Req, Res>>,
    clients: seq<Client<Req, Res>>,
    workers: seq<Worker<Mem>>,
    log: seq<Event<Req, Res>>)

  /** `handle` is handle_ops: it reads and changes the memory of the worker process. */
  datatype Config<!Mem, !Req, !Res> =
    Config(workers: nat, clients: nat, init: Mem, handle: (Mem, Req) -> (Mem, Res))
  {
    ghost predicate Valid() {
      1 <= workers <= MAX_REGION_NUM
    }
  }

  /** The number of workers the server forks for a compile-time OPS_WORKER_NUM of `n`. */
  function OpsWorkerCount(n: nat): (w: nat)
    requires 1 <= n
    ensures 1 <= w <= MAX_REGION_NUM && w <= n && (w == n || w == MAX_REGION_NUM)
  {
    if n < MAX_REGION_NUM then n else MAX_REGION_NUM
  }

  predicate Bit(bitmap: seq<Word>, r: nat)
    requires |bitmap| == BITMAP_SIZE && forall i | 0 <= i < |bitmap| :: |bitmap[i]| == BITMAP_BITS
    requires r < MAX_REGION_NUM
  {
    bitmap[r / BITMAP_BITS][r % BITMAP_BITS]
  }

  ghost predicate Shape<Mem, Req, Res>(cfg: Config<Mem, Req, Res>, s: State<Mem, Req, Res>) {
    && |s.bitmap| == BITMAP_SIZE && (forall i | 0 <= i < |s.bitmap| :: |s.bitmap[i]| == BITMAP_BITS)
    && |s.regions| == MAX_REGION_NUM
    && |s.workers| == cfg.workers
    && |s.clients| == cfg.clients
    && (forall c | 0 <= c < |s.clients| :: PcInRange(s.clients[c].pc))
    && (forall w | 0 <= w < |s.workers| :: s.workers[w].pc.r < MAX_REGION_NUM)
  }

  ghost predicate PcInRange<Req>(pc: ClientPc<Req>) {
    match pc
    case Absent => true
    case Gone => true
    case Scan(r) => r <= MAX_REGION_NUM
    case Loaded(r, word) => r < MAX_REGION_NUM && |word| == BITMAP_BITS
    case _ => pc.r < MAX_REGION_NUM
  }

  function Initial<Mem, Req, Res>(cfg: Config<Mem, Req, Res>): (s: State<Mem, Req, Res>)
    requires cfg.Valid()
    ensures Shape(cfg, s)
  {
    State(
      seq(BITMAP_SIZE, _ => seq(BITMAP_BITS, _ => false)),
      seq(MAX_REGION_NUM, _ => Region(NONE, None, None)),
      seq(cfg.clients, _ => Client(Absent, [], [])),
      seq(cfg.workers, (w: nat) => Worker(Poll(w), cfg.init)),
      [])
  }

  // ------------------------------------------------------------------------------------------
  // Steps
  // ------------------------------------------------------------------------------------------

  datatype Action<Req> = Go | Submit(q: Req) | Quit

  /** A schedule is a sequence of steps; a step that is not enabled changes nothing. */
  datatype Step<Req> = ClientStep(c: nat, action: Action<Req>) | WorkerStep(w: nat)

  function Move<Mem, Req, Res>(s: State<Mem, Req, Res>, c: nat, pc: ClientPc<Req>): State<Mem, Req, Res>
    requires c < |s.clients|
  {
    s.(clients := s.clients[c := s.clients[c].(pc := pc)])
  }

  function SetStatus<Mem, Req, Res>(s: State<Mem, Req, Res>, r: nat, status: Status): State<Mem, Req, Res>
    requires r < |s.regions|
  {
    s.(regions := s.regions[r := s.regions[r].(status := status)])
  }

  function SetBit<Mem, Req, Res>(s: State<Mem, Req, Res>, r: nat, value: bool): State<Mem, Req, Res>
    requires |s.bitmap| == BITMAP_SIZE && forall i | 0 <= i < |s.bitmap| :: |s.bitmap[i]| == BITMAP_BITS
    requires r < MAX_REGION_NUM
  {
    var w := r / BITMAP_BITS;
    s.(bitmap := s.bitmap[w := s.bitmap[w][r % BITMAP_BITS := value]])
  }

  /** claim_shm_region and getSharedBuffer, one memory access a step. */
  function ClaimGo<Mem, Req, Res>(cfg: Config<Mem, Req, Res>, s: State<Mem, Req, Res>, c: nat)
    : (s': State<Mem, Req, Res>)
    requires Shape(cfg, s) && c < |s.clients|
    ensures Shape(cfg, s')
  {
    match s.clients[c].pc
    case Absent => Move(s, c, Scan(0))
    case Scan(r) =>
      if r == MAX_REGION_NUM then Move(s, c, Scan(0))
      else
        var word := s.bitmap[r / BITMAP_BITS];
        if word[r % BITMAP_BITS] then Move(s, c, Scan(r + 1)) else Move(s, c, Loaded(r, word))
    case Loaded(r, word) =>
      if s.bitmap[r / BITMAP_BITS] == word
      then Move(SetBit(s, r, true), c, Claimed(r))
      else Move(s, c, Scan(r))
    case Claimed(r) =>
      Move(s.(regions := s.regions[r := Region(NONE, None, None)]), c, Ready(r))
    case _ => s
  }

  /** sendRequest */
  function SendGo<Mem, Req, Res>(cfg: Config<Mem, Req, Res>, s: State<Mem, Req, Res>, c: nat)
    : (s': State<Mem, Req, Res>)
    requires Shape(cfg, s) && c < |s.clients|
    ensures Shape(cfg, s')
  {
    match s.clients[c].pc
    case Serialised(r, q) =>
      var s1 := SetStatus(s, r, SENT);
      s1.(clients := s.clients[c := Client(Waiting(r), s.clients[c].sent + [q], s.clients[c].got)])
    case Waiting(r) =>
      if s.regions[r].status == DONE then Move(s, c, Fetching(r)) else s
    case Fetching(r) =>
      if s.regions[r].res.None? then s
      else
        var got := s.clients[c].got + [s.regions[r].res.value];
        s.(clients := s.clients[c := Client(Copied(r), s.clients[c].sent, got)])
    case Copied(r) => Move(SetStatus(s, r, NONE), c, Ready(r))
    case _ => s
  }

  /** freeBuffer */
  function FreeGo<Mem, Req, Res>(cfg: Config<Mem, Req, Res>, s: State<Mem, Req, Res>, c: nat)
    : (s': State<Mem, Req, Res>)
    requires Shape(cfg, s) && c < |s.clients|
    ensures Shape(cfg, s')
  {
    match s.clients[c].pc
    case Quitting(r) =>
      if s.regions[r].status == SENT then s else Move(SetStatus(s, r, NONE), c, Releasing(r))
    case Releasing(r) => Move(SetBit(s, r, false), c, Gone)
    case _ => s
  }

  function ClientGo<Mem, Req, Res>(cfg: Config<Mem, Req, Res>, s: State<Mem, Req, Res>, c: nat)
    : (s': State<Mem, Req, Res>)
    requires Shape(cfg, s) && c < |s.clients|
    ensures Shape(cfg, s')
  {
    match s.clients[c].pc
    case Absent => ClaimGo(cfg, s, c)
    case Scan(_) => ClaimGo(cfg, s, c)
    case Loaded(_, _) => ClaimGo(cfg, s, c)
    case Claimed(_) => ClaimGo(cfg, s, c)
    case Quitting(_) => FreeGo(cfg, s, c)
    case Releasing(_) => FreeGo(cfg, s, c)
    case _ => SendGo(cfg, s, c)
  }

  function ClientStepTo<Mem, Req, Res>(
    cfg: Config<Mem, Req, Res>, s: State<Mem, Req, Res>, c: nat, action: Action<Req>)
    : (s': State<Mem, Req, Res>)
    requires Shape(cfg, s) && c < |s.clients|
    ensures Shape(cfg, s')
  {
    match action
    case Go => ClientGo(cfg, s, c)
    case Submit(q) =>
      if s.clients[c].pc.Ready? then
        var r := s.clients[c].pc.r;
        var s1 := s.(regions := s.regions[r := s.regions[r].(req := Some(Tagged(c, q)))]);
        Move(s1, c, Serialised(r, q))
      else s
    case Quit =>
      match s.clients[c].pc
      case Scan(r) => if r == MAX_REGION_NUM then Move(s, c, Gone) else s
      case Ready(r) => Move(s, c, Quitting(r))
      case Serialised(r, _) => Move(s, c, Quitting(r))
      case Waiting(r) => Move(s, c, Quitting(r))
      case Fetching(r) => Move(s, c, Quitting(r))
      case Copied(r) => Move(s, c, Quitting(r))
      case _ => s
  }

  /** The next region worker `w` looks at after `r`; past the last one the scan starts again. */
  function NextRegion(w: nat, r: nat, count: nat): (n: nat)
    requires w < count <= MAX_REGION_NUM && r < MAX_REGION_NUM
    ensures n < MAX_REGION_NUM
  {
    if r + count < MAX_REGION_NUM then r + count else w
  }

  /** The scan loop of fork_ops_worker and handle_request. */
  function WorkerGo<Mem, Req, Res>(cfg: Config<Mem, Req, Res>, s: State<Mem, Req, Res>, w: nat)
    : (s': State<Mem, Req, Res>)
    requires cfg.Valid() && Shape(cfg, s) && w < |s.workers|
    ensures Shape(cfg, s')
  {
    var W := s.workers[w];
    match W.pc
    case Poll(r) =>
      var pc := if Bit(s.bitmap, r) then Seen(r) else Poll(NextRegion(w, r, cfg.workers));
      s.(workers := s.workers[w := W.(pc := pc)])
    case Seen(r) =>
      var pc := if s.regions[r].status == SENT then Accepted(r) else Poll(NextRegion(w, r, cfg.workers));
      s.(workers := s.workers[w := W.(pc := pc)])
    case Accepted(r) =>
      if s.regions[r].req.None? then s
      else
        var Tagged(c, q) := s.regions[r].req.value;
        var (mem, res) := cfg.handle(W.mem, q);
        s.(regions := s.regions[r := s.regions[r].(res := Some(res))],
           workers := s.workers[w := Worker(Computed(r), mem)],
           log := s.log + [Event(w, r, c, q, res)])
    case Computed(r) =>
      var s1 := SetStatus(s, r, DONE);
      s1.(workers := s.workers[w := W.(pc := Poll(w))])
  }

  function Apply<Mem, Req, Res>(cfg: Config<Mem, Req, Res>, s: State<Mem, Req, Res>, step: Step<Req>)
    : (s': State<Mem, Req, Res>)
    requires cfg.Valid() && Shape(cfg, s)
    ensures Shape(cfg, s')
  {
    match step
    case ClientStep(c, action) => if c < |s.clients| then ClientStepTo(cfg, s, c, action) else s
    case WorkerStep(w) => if w < |s.workers| then WorkerGo(cfg, s, w) else s
  }

  /** The state after a schedule. */
  function Exec<Mem, Req, Res>(cfg: Config<Mem, Req, Res>, schedule: seq<Step<Req>>)
    : (s: State<Mem, Req, Res>)
    requires cfg.Valid()
    ensures Shape(cfg, s)
  {
    if schedule == [] then Initial(cfg)
    else Apply(cfg, Exec(cfg, schedule[..|schedule| - 1]), schedule[|schedule| - 1])
  }

  // ------------------------------------------------------------------------------------------
  // What the guarantees talk about
  // ------------------------------------------------------------------------------------------

  /** The region a client holds, between a successful compare-and-swap and the release. */
  function Holds<Req>(pc: ClientPc<Req>): Option<nat> {
    match pc
    case Absent => None
    case Scan(_) => None
    case Loaded(_, _) => None
    case Gone => None
    case _ => Some(pc.r)
  }

  /** The requests of client `c` that some worker handled, in order. */
  function Served<Req, Res>(log: seq<Event<Req, Res>>, c: nat): (rs: seq<Req>) {
    if log == [] then []
    else
      var e := log[|log| - 1];
      Served(log[..|log| - 1], c) + if e.client == c then [e.req] else []
  }

  /** The results of those requests, in order. */
  function Results<Req, Res>(log: seq<Event<Req, Res>>, c: nat): (rs: seq<Res>)
    ensures |rs| == |Served(log, c)|
  {
    if log == [] then []
    else
      var e := log[|log| - 1];
      Results(log[..|log| - 1], c) + if e.client == c then [e.res] else []
  }

  /** The memory of worker `w` after it handled its part of the log, one request after another. */
  function MemAfter<Mem, Req, Res>(cfg: Config<Mem, Req, Res>, log: seq<Event<Req, Res>>, w: nat): Mem {
    if log == [] then cfg.init
    else
      var e := log[|log| - 1];
      var m := MemAfter(cfg, log[..|log| - 1], w);
      if e.worker == w then cfg.handle(m, e.req).0 else m
  }

  /** Every result is what its worker computes, in its memory at that moment, from the request. */
  ghost predicate LogHonest<Mem, Req, Res>(cfg: Config<Mem, Req, Res>, log: seq<Event<Req, Res>>)
    requires cfg.Valid()
  {
    forall i | 0 <= i < |log| ::
      && log[i].worker == log[i].region % cfg.workers
      && log[i].res == cfg.handle(MemAfter(cfg, log[..i], log[i].worker), log[i].req).1
  }

  ghost predicate OneRegionPerClient<Req, Res>(log: seq<Event<Req, Res>>) {
    forall i, j | 0 <= i < |log| && 0 <= j < |log| && log[i].client == log[j].client ::
      log[i].region == log[j].region
  }

  // ------------------------------------------------------------------------------------------
  // The inductive invariant
  // ------------------------------------------------------------------------------------------

  /** Every request this client sent has been handled. */
  ghost predicate CaughtUp<Mem, Req, Res>(s: State<Mem, Req, Res>, c: nat)
    requires c < |s.clients|
  {
    Served(s.log, c) == s.clients[c].sent
  }

  /** Every request but the last one has been handled. */
  ghost predicate Behind<Mem, Req, Res>(s: State<Mem, Req, Res>, c: nat)
    requires c < |s.clients|
  {
    var sent := s.clients[c].sent;
    |sent| > 0 && Served(s.log, c) == sent[..|sent| - 1]
  }

  /** The buffer holds the last request of `c` and, once computed, its result. */
  ghost predicate InFlight<Mem, Req, Res>(cfg: Config<Mem, Req, Res>, s: State<Mem, Req, Res>, c: nat, r: nat)
    requires cfg.Valid() && Shape(cfg, s) && c < |s.clients| && r < MAX_REGION_NUM
  {
    var sent, region := s.clients[c].sent, s.regions[r];
    && |sent| > 0
    && region.req == Some(Tagged(c, sent[|sent| - 1]))
    && region.status != NONE
    && if region.status == SENT && s.workers[r % cfg.workers].pc != Computed(r)
       then Behind(s, c)
       else CaughtUp(s, c) && region.res == Some(Results(s.log, c)[|sent| - 1])
  }

  ghost predicate IsPrefix<T>(a: seq<T>, b: seq<T>) {
    |a| <= |b| && a == b[..|a|]
  }

  ghost predicate ClientInv<Mem, Req, Res>(cfg: Config<Mem, Req, Res>, s: State<Mem, Req, Res>, c: nat)
    requires cfg.Valid() && Shape(cfg, s) && c < |s.clients|
  {
    var C := s.clients[c];
    && (Holds(C.pc).Some? ==> Bit(s.bitmap, C.pc.r))
    && (Holds(C.pc).Some? ==> forall e | e in s.log && e.client == c :: e.region == C.pc.r)
    && IsPrefix(C.got, Results(s.log, c))
    && match C.pc
       case Absent => Fresh(s, c)
       case Scan(_) => Fresh(s, c)
       case Loaded(r, word) => Fresh(s, c) && !word[r % BITMAP_BITS]
       case Claimed(r) => Fresh(s, c) && s.regions[r].status == NONE
       case Ready(r) => Idle(s, c, r)
       case Serialised(r, q) => Idle(s, c, r) && s.regions[r].req == Some(Tagged(c, q))
       case Waiting(r) => InFlight(cfg, s, c, r) && |C.got| == |C.sent| - 1
       case Fetching(r) =>
         InFlight(cfg, s, c, r) && |C.got| == |C.sent| - 1 && s.regions[r].status == DONE
       case Copied(r) => CaughtUp(s, c) && |C.got| == |C.sent| && s.regions[r].status == DONE
       case Quitting(r) =>
         if s.regions[r].status == SENT then InFlight(cfg, s, c, r) else CaughtUp(s, c)
       case Releasing(r) => CaughtUp(s, c) && s.regions[r].status == NONE
       case Gone => CaughtUp(s, c)
  }

  ghost predicate Fresh<Mem, Req, Res>(s: State<Mem, Req, Res>, c: nat)
    requires c < |s.clients|
  {
    s.clients[c].sent == [] && s.clients[c].got == [] && forall e | e in s.log :: e.client != c
  }

  ghost predicate Idle<Mem, Req, Res>(s: State<Mem, Req, Res>, c: nat, r: nat)
    requires c < |s.clients| && r < |s.regions|
  {
    CaughtUp(s, c) && |s.clients[c].got| == |s.clients[c].sent| && s.regions[r].status == NONE
  }

  ghost predicate WorkerInv<Mem, Req, Res>(cfg: Config<Mem, Req, Res>, s: State<Mem, Req, Res>, w: nat)
    requires cfg.Valid() && Shape(cfg, s) && w < |s.workers|
  {
    var W := s.workers[w];
    && W.pc.r % cfg.workers == w
    && W.mem == MemAfter(cfg, s.log, w)
    && (W.pc.Accepted? || W.pc.Computed? ==> s.regions[W.pc.r].status == SENT)
  }

  ghost predicate Exclusive<Mem, Req, Res>(s: State<Mem, Req, Res>) {
    forall c, d | 0 <= c < |s.clients| && 0 <= d < |s.clients| && c != d ::
      var h := Holds(s.clients[c].pc);
      h.Some? ==> h != Holds(s.clients[d].pc)
  }

  ghost predicate Held<Mem, Req, Res>(s: State<Mem, Req, Res>, r: nat) {
    exists c | 0 <= c < |s.clients| :: Holds(s.clients[c].pc) == Some(r)
  }

  ghost predicate Inv<Mem, Req, Res>(cfg: Config<Mem, Req, Res>, s: State<Mem, Req, Res>) {
    && cfg.Valid() && Shape(cfg, s)
    && Exclusive(s)
    && (forall r | 0 <= r < MAX_REGION_NUM && s.regions[r].status != NONE :: Held(s, r))
    && (forall r | 0 <= r < MAX_REGION_NUM && Bit(s.bitmap, r) :: Held(s, r))
    && (forall c | 0 <= c < |s.clients| :: ClientInv(cfg, s, c))
    && (forall w | 0 <= w < |s.workers| :: WorkerInv(cfg, s, w))
    && LogHonest(cfg, s.log)
    && OneRegionPerClient(s.log)
  }
}
