/** What a backend may rely on between two of its requests: the RPC of module Rpc instantiated
    with workers whose memory is the local store of module LocalStore.

    Sources: src/privacy_zone/server.cpp, src/privacy_zone/include/kv.hpp,
    src/privacy_zone/include/kv-local.hpp. */
module Session {
  import opened Options
  import opened Rpc
  import opened RpcSafety
  import opened RpcReach
  import opened LocalStore

  type Store<V> = s: View<V> | s.Valid() witness View([], [], [])

  /** A request makes its worker access the local store any number of times. */
  datatype Access<V> = Do(op: Op<V>) | Read(idx: nat)

  datatype Answer<V> = Key(idx: nat) | Value(value: Option<V>) | Ack

  function Handle<V>(zero: V, mem: Store<V>, req: seq<Access<V>>): (r: (Store<V>, seq<Answer<V>>))
    ensures |r.1| == |req|
  {
    if req == [] then (mem, [])
    else
      var (m, answers) := Handle(zero, mem, req[..|req| - 1]);
      match req[|req| - 1]
      case Read(i) => (m, answers + [Value(Lookup(m.Contents(), i))])
      case Do(PutOp(v)) => PutAddsOneEntry(m, v); (m.Put(v), answers + [Key(m.Key())])
      case Do(EraseOp(k)) => EraseRemovesOneEntry(m, k, zero); (m.Erase(k, zero), answers + [Ack])
      case Do(ClearOp) => (View([], [], []), answers + [Ack])
  }

  type Server<!V> = Config<Store<V>, seq<Access<V>>, seq<Answer<V>>>

  function LocalServer<V>(workers: nat, clients: nat, zero: V): Server<V> {
    var handle: (Store<V>, seq<Access<V>>) -> (Store<V>, seq<Answer<V>>) := (m, q) => Handle(zero, m, q);
    var empty: Store<V> := View([], [], []);
    Config<Store<V>, seq<Access<V>>, seq<Answer<V>>>.Config(workers, clients, empty, handle)
  }

  /** No access erases index `x` or clears the store. */
  ghost predicate Quiet<V>(req: seq<Access<V>>, x: nat) {
    forall i | 0 <= i < |req| :: req[i] != Do(EraseOp(x)) && req[i] != Do(ClearOp)
  }

  ghost predicate Denotes<V>(mem: Store<V>, x: nat, v: V) {
    x in mem.Contents() && mem.Contents()[x] == v
  }

  /** The first `n` accesses of a request are handled as a request of their own. */
  lemma {:induction false} HandlePrefix<V>(zero: V, mem: Store<V>, req: seq<Access<V>>, n: nat)
    requires n <= |req|
    ensures Handle(zero, mem, req).1[..n] == Handle(zero, mem, req[..n]).1
  {
    if n < |req| {
      HandlePrefix(zero, mem, req[..|req| - 1], n);
      assert req[..|req| - 1][..n] == req[..n];
    } else {
      assert req[..n] == req;
    }
  }

  /** A quiet request leaves the meaning of a live index alone, whatever it puts. */
  lemma {:induction false} QuietKeeps<V>(zero: V, mem: Store<V>, req: seq<Access<V>>, x: nat, v: V)
    requires Denotes(mem, x, v) && Quiet(req, x)
    ensures Denotes(Handle(zero, mem, req).0, x, v)
  {
    if req != [] {
      var front := req[..|req| - 1];
      QuietKeeps(zero, mem, front, x, v);
      var m := Handle(zero, mem, front).0;
      match req[|req| - 1]
      case Read(_) =>
      case Do(PutOp(u)) => PutAddsOneEntry(m, u);
      case Do(EraseOp(k)) => EraseRemovesOneEntry(m, k, zero);
    }
  }

  /** After a put that returned `x`, quiet accesses until the end of the request keep `x`. */
  lemma {:induction false} PutThenQuiet<V>(zero: V, mem: Store<V>, req: seq<Access<V>>, a: nat, x: nat, v: V)
    requires a < |req| && req[a] == Do(PutOp(v)) && Handle(zero, mem, req).1[a] == Key(x)
    requires Quiet(req[a + 1..], x)
    ensures Denotes(Handle(zero, mem, req).0, x, v)
  {
    var n := |req| - 1;
    var m := Handle(zero, mem, req[..n]).0;
    if a == n {
      PutAddsOneEntry(m, v);
    } else {
      HandlePrefix(zero, mem, req, n);
      assert req[a + 1..n] == req[..n][a + 1..];
      assert req[a + 1..][..n - a - 1] == req[a + 1..n];
      assert req[a + 1..][n - a - 1] == req[n];
      PutThenQuiet(zero, mem, req[..n], a, x, v);
      match req[n]
      case Read(_) =>
      case Do(PutOp(u)) => PutAddsOneEntry(m, u);
      case Do(EraseOp(k)) => EraseRemovesOneEntry(m, k, zero);
    }
  }

  type History<V> = seq<Event<seq<Access<V>>, seq<Answer<V>>>>

  /** Worker `w` keeps the meaning of `x` from log position `i` to `k` if its requests are quiet. */
  lemma {:induction false} WorkerKeeps<V>(
    cfg: Server<V>, zero: V, log: History<V>, w: nat, i: nat, k: nat, x: nat, v: V)
    requires i <= k <= |log| && cfg == LocalServer(cfg.workers, cfg.clients, zero)
    requires Denotes(MemAfter(cfg, log[..i], w), x, v)
    requires forall j | i <= j < k && log[j].worker == w :: Quiet(log[j].req, x)
    ensures Denotes(MemAfter(cfg, log[..k], w), x, v)
    decreases k - i
  {
    if i < k {
      WorkerKeeps(cfg, zero, log, w, i, k - 1, x, v);
      assert log[..k][..k - 1] == log[..k - 1];
      if log[k - 1].worker == w {
        QuietKeeps(zero, MemAfter(cfg, log[..k - 1], w), log[k - 1].req, x, v);
      }
    }
  }

  /** Access `a` of event `i` put `v` and was answered with `x`; access `b` of event `k` of the same
      client reads `x`; nothing the worker did in between erased `x` or cleared the store. */
  ghost predicate PutThenRead<V>(log: History<V>, i: nat, a: nat, k: nat, b: nat, x: nat, v: V) {
    && i < k < |log| && log[i].client == log[k].client
    && a < |log[i].req| && a < |log[i].res| && log[i].req[a] == Do(PutOp(v)) && log[i].res[a] == Key(x)
    && b < |log[k].req| && log[k].req[b] == Read(x)
    && Quiet(log[i].req[a + 1..], x) && Quiet(log[k].req[..b], x)
    && forall j | i < j < k && log[j].worker == log[i].worker :: Quiet(log[j].req, x)
  }

  lemma StableInHonestLog<V>(
    cfg: Server<V>, zero: V, log: History<V>, i: nat, a: nat, k: nat, b: nat, x: nat, v: V)
    requires cfg == LocalServer(cfg.workers, cfg.clients, zero) && cfg.Valid()
    requires LogHonest(cfg, log) && PutThenRead(log, i, a, k, b, x, v) && log[i].worker == log[k].worker
    ensures |log[k].res| == |log[k].req| && log[k].res[b] == Value(Some(v))
  {
    var w := log[i].worker;
    var before, last := MemAfter(cfg, log[..i], w), MemAfter(cfg, log[..k], w);
    assert Denotes(MemAfter(cfg, log[..i + 1], w), x, v) by {
      assert log[..i + 1][..i] == log[..i];
      PutThenQuiet(zero, before, log[i].req, a, x, v);
    }
    WorkerKeeps(cfg, zero, log, w, i + 1, k, x, v);
    var req := log[k].req;
    QuietKeeps(zero, last, req[..b], x, v);
    HandlePrefix(zero, last, req, b + 1);
    assert req[..b + 1][..b] == req[..b];
    assert Handle(zero, last, req[..b + 1]).1[b] == Value(Some(v));
    assert log[k].res == Handle(zero, last, req).1;
  }

  /** In every schedule: a local RID that a client was given denotes the same value in its later
      requests, until some request handled by the worker of this client erases that index or
      clears the store. */
  lemma LocalRidsAreStable<V>(
    cfg: Server<V>, zero: V, schedule: seq<Step<seq<Access<V>>>>,
    i: nat, a: nat, k: nat, b: nat, x: nat, v: V)
    requires cfg == LocalServer(cfg.workers, cfg.clients, zero) && cfg.Valid()
    requires PutThenRead(Rpc.Exec(cfg, schedule).log, i, a, k, b, x, v)
    ensures var answer := Rpc.Exec(cfg, schedule).log[k].res;
      b < |answer| && answer[b] == Value(Some(v))
  {
    ExecInv(cfg, schedule);
    OneWorkerPerClient(cfg, schedule, i, k);
    StableInHonestLog(cfg, zero, Rpc.Exec(cfg, schedule).log, i, a, k, b, x, v);
  }

  // ------------------------------------------------------------------------------------------
  // Exactly what a read answers
  // ------------------------------------------------------------------------------------------

  /** What an access did to the store, as its answer shows it. */
  function DidOne<V>(access: Access<V>, answer: Answer<V>): seq<Seen<V>> {
    match access
    case Read(_) => []
    case Do(PutOp(v)) => if answer.Key? then [DidPut(answer.idx, v)] else []
    case Do(EraseOp(k)) => [DidErase(k)]
    case Do(ClearOp) => [DidClear]
  }

  function Did<V>(req: seq<Access<V>>, res: seq<Answer<V>>): seq<Seen<V>>
    requires |req| <= |res|
  {
    if req == [] then [] else Did(req[..|req| - 1], res) + DidOne(req[|req| - 1], res[|req| - 1])
  }

  /** What worker `w` did, request after request. */
  function WorkerDid<V>(log: History<V>, w: nat): seq<Seen<V>>
    requires forall e | e in log :: |e.req| <= |e.res|
  {
    if log == [] then []
    else
      var n := |log| - 1;
      WorkerDid(log[..n], w) + if log[n].worker == w then Did(log[n].req, log[n].res) else []
  }

  /** The history tells what every index reads, and its puts are fresh. */
  ghost predicate Explains<V(!new)>(did: seq<Seen<V>>, mem: Store<V>) {
    && (forall x: nat :: Lookup(mem.Contents(), x) == LastPut(did, x))
    && FreshPuts(did)
  }

  lemma {:induction false} DidOfPrefix<V>(req: seq<Access<V>>, res: seq<Answer<V>>, more: seq<Answer<V>>)
    requires |req| <= |res| <= |more| && more[..|res|] == res
    ensures Did(req, more) == Did(req, res)
  {
    if req != [] {
      DidOfPrefix(req[..|req| - 1], res, more);
      assert more[|req| - 1] == more[..|res|][|req| - 1];
    }
  }

  /** One access keeps the history and the store in step. */
  lemma OneAccess<V(!new)>(zero: V, mem: Store<V>, req: seq<Access<V>>, did: seq<Seen<V>>)
    requires req != [] && Explains(did, Handle(zero, mem, req[..|req| - 1]).0)
    ensures var (m, res) := Handle(zero, mem, req); Explains(did + DidOne(req[|req| - 1], res[|req| - 1]), m)
  {
    var n := |req| - 1;
    var (m, _) := Handle(zero, mem, req[..n]);
    var (m', res) := Handle(zero, mem, req);
    match req[n]
    case Read(_) => assert did + [] == did;
    case Do(PutOp(v)) =>
      PutAddsOneEntry(m, v);
      StepExplains(did, m, m', DidPut(m.Key(), v));
    case Do(EraseOp(k)) =>
      EraseRemovesOneEntry(m, k, zero);
      StepExplains(did, m, m', DidErase(k));
    case Do(ClearOp) => StepExplains(did, m, m', DidClear);
  }

  lemma StepExplains<V(!new)>(did: seq<Seen<V>>, m: Store<V>, m': Store<V>, e: Seen<V>)
    requires Explains(did, m) && (e.DidPut? ==> e.key !in m.Contents())
    requires m'.Contents() == match e
      case DidPut(k, v) => m.Contents()[k := v]
      case DidErase(k) => m.Contents() - {k}
      case DidClear => map[]
    ensures Explains(did + [e], m')
  {
    forall x: nat ensures Lookup(m'.Contents(), x) == LastPut(did + [e], x) {
      LastPutSnoc(did, e, x);
    }
    FreshSnoc(did, e);
  }

  lemma {:induction false} HandleExplains<V(!new)>(zero: V, mem: Store<V>, req: seq<Access<V>>, did: seq<Seen<V>>)
    requires Explains(did, mem)
    ensures var (m, res) := Handle(zero, mem, req); Explains(did + Did(req, res), m)
  {
    if req == [] {
      assert did + [] == did;
    } else {
      var n := |req| - 1;
      var front, res := Handle(zero, mem, req[..n]).1, Handle(zero, mem, req).1;
      HandleExplains(zero, mem, req[..n], did);
      HandlePrefix(zero, mem, req, n);
      DidOfPrefix(req[..n], front, res);
      OneAccess(zero, mem, req, did + Did(req[..n], front));
      assert did + Did(req, res) == (did + Did(req[..n], front)) + DidOne(req[n], res[n]);
    }
  }

  lemma HonestEvent<V>(cfg: Server<V>, zero: V, log: History<V>, i: nat)
    requires cfg == LocalServer(cfg.workers, cfg.clients, zero) && cfg.Valid() && LogHonest(cfg, log) && i < |log|
    ensures log[i].res == Handle(zero, MemAfter(cfg, log[..i], log[i].worker), log[i].req).1
    ensures |log[i].req| == |log[i].res|
  {
  }

  lemma HonestLengths<V>(cfg: Server<V>, zero: V, log: History<V>)
    requires cfg == LocalServer(cfg.workers, cfg.clients, zero) && cfg.Valid() && LogHonest(cfg, log)
    ensures forall e | e in log :: |e.req| == |e.res|
  {
    forall e | e in log ensures |e.req| == |e.res| {
      var i :| 0 <= i < |log| && log[i] == e;
      HonestEvent(cfg, zero, log, i);
    }
  }

  lemma {:induction false} WorkerExplains<V(!new)>(cfg: Server<V>, zero: V, log: History<V>, w: nat)
    requires cfg == LocalServer(cfg.workers, cfg.clients, zero) && cfg.Valid() && LogHonest(cfg, log)
    requires forall e | e in log :: |e.req| == |e.res|
    ensures Explains(WorkerDid(log, w), MemAfter(cfg, log, w))
  {
    if log != [] {
      var n := |log| - 1;
      var front, e := log[..n], log[n];
      HonestPrefix(cfg, log, n);
      HonestLengths(cfg, zero, front);
      WorkerExplains(cfg, zero, front, w);
      HonestEvent(cfg, zero, log, n);
      EventExplains(cfg, zero, front, e, w);
      assert log == front + [e];
    }
  }

  /** One more event keeps the history of a worker and its store in step. */
  lemma EventExplains<V(!new)>(
    cfg: Server<V>, zero: V, front: History<V>, e: Event<seq<Access<V>>, seq<Answer<V>>>, w: nat)
    requires cfg == LocalServer(cfg.workers, cfg.clients, zero)
    requires (forall f | f in front :: |f.req| == |f.res|) && |e.req| == |e.res|
    requires e.res == Handle(zero, MemAfter(cfg, front, e.worker), e.req).1
    requires Explains(WorkerDid(front, w), MemAfter(cfg, front, w))
    ensures forall f | f in front + [e] :: |f.req| == |f.res|
    ensures Explains(WorkerDid(front + [e], w), MemAfter(cfg, front + [e], w))
  {
    assert (front + [e])[..|front|] == front;
    if e.worker == w {
      HandleExplains(zero, MemAfter(cfg, front, w), e.req, WorkerDid(front, w));
    } else {
      assert WorkerDid(front, w) + [] == WorkerDid(front, w);
    }
  }

  lemma HonestPrefix<V>(cfg: Server<V>, log: History<V>, k: nat)
    requires cfg.Valid() && LogHonest(cfg, log) && k <= |log|
    ensures LogHonest(cfg, log[..k])
  {
    var front := log[..k];
    forall i | 0 <= i < |front|
      ensures front[i].worker == front[i].region % cfg.workers
      ensures front[i].res == cfg.handle(MemAfter(cfg, front[..i], front[i].worker), front[i].req).1
    {
      assert front[..i] == log[..i] && front[i] == log[i];
    }
  }

  /** What the worker of event `k` had done before access `b` of that event. */
  function DidBefore<V>(log: History<V>, k: nat, b: nat): seq<Seen<V>>
    requires k < |log| && b <= |log[k].req| && forall e | e in log :: |e.req| == |e.res|
  {
    assert forall e | e in log[..k] :: e in log;
    WorkerDid(log[..k], log[k].worker) + Did(log[k].req[..b], log[k].res)
  }

  lemma ReadInHonestLog<V(!new)>(cfg: Server<V>, zero: V, log: History<V>, k: nat, b: nat, x: nat)
    requires cfg == LocalServer(cfg.workers, cfg.clients, zero) && cfg.Valid() && LogHonest(cfg, log)
    requires k < |log| && b < |log[k].req| && log[k].req[b] == Read(x)
    ensures forall e | e in log :: |e.req| == |e.res|
    ensures log[k].res[b] == Value(LastPut(DidBefore(log, k, b), x)) && FreshPuts(DidBefore(log, k, b))
  {
    var w, req, res := log[k].worker, log[k].req, log[k].res;
    HonestLengths(cfg, zero, log);
    HonestPrefix(cfg, log, k);
    HonestLengths(cfg, zero, log[..k]);
    WorkerExplains(cfg, zero, log[..k], w);
    var mem := MemAfter(cfg, log[..k], w);
    HonestEvent(cfg, zero, log, k);
    HandleExplains(zero, mem, req[..b], WorkerDid(log[..k], w));
    HandlePrefix(zero, mem, req, b);
    DidOfPrefix(req[..b], Handle(zero, mem, req[..b]).1, res);
    HandlePrefix(zero, mem, req, b + 1);
    assert req[..b + 1][..b] == req[..b];
    assert res[b] == res[..b + 1][b];
  }

  /** In every schedule every read is answered by the last put at its index that its worker has not
      undone, as the worker's own answers show it; and no put returned a live index. */
  lemma ReadsSeeTheLastPut<V(!new)>(
    cfg: Server<V>, zero: V, schedule: seq<Step<seq<Access<V>>>>, k: nat, b: nat, x: nat)
    requires cfg == LocalServer(cfg.workers, cfg.clients, zero) && cfg.Valid()
    requires var log := Rpc.Exec(cfg, schedule).log; k < |log| && b < |log[k].req| && log[k].req[b] == Read(x)
    ensures var log := Rpc.Exec(cfg, schedule).log;
      && (forall e | e in log :: |e.req| == |e.res|)
      && log[k].res[b] == Value(LastPut(DidBefore(log, k, b), x)) && FreshPuts(DidBefore(log, k, b))
  {
    RpcSafety.ExecInv(cfg, schedule);
    ReadInHonestLog(cfg, zero, Rpc.Exec(cfg, schedule).log, k, b, x);
  }

  /** Exactly when a local RID still denotes its value: in every schedule, after the worker put `v` at
      `x`, a read of `x` answers `v` if and only if the worker has neither erased `x` nor cleared the
      store since, and nothing if and only if it has, unless it has handed out `x` again; and it only
      does that after an erase or a clear. */
  lemma LocalRidsAreStableIff<V(!new)>(
    cfg: Server<V>, zero: V, schedule: seq<Step<seq<Access<V>>>>, k: nat, b: nat, x: nat,
    before: seq<Seen<V>>, v: V, since: seq<Seen<V>>)
    requires cfg == LocalServer(cfg.workers, cfg.clients, zero) && cfg.Valid()
    requires var log := Rpc.Exec(cfg, schedule).log; k < |log| && b < |log[k].req| && log[k].req[b] == Read(x)
    requires var log := Rpc.Exec(cfg, schedule).log;
      (forall e | e in log :: |e.req| == |e.res|) && DidBefore(log, k, b) == before + [DidPut(x, v)] + since
    ensures Reissued(since, x) ==> Undone(since, x)
    ensures !Reissued(since, x) ==>
      var answer := Rpc.Exec(cfg, schedule).log[k].res[b];
      (answer == Value(Some(v)) <==> !Undone(since, x)) && (answer == Value(None) <==> Undone(since, x))
  {
    ReadsSeeTheLastPut(cfg, zero, schedule, k, b, x);
    if !Undone(since, x) { LiveKeyIsNotReissued(before, x, v, since); }
    if !Reissued(since, x) { SinceAPut(before, x, v, since); }
  }

  lemma HandleSingle<V>(zero: V, mem: Store<V>, access: Access<V>)
    ensures var (m, answers) := Handle(zero, mem, [access]);
      && (access.Read? ==> m == mem && answers == [Value(Lookup(mem.Contents(), access.idx))])
      && (access == Do(ClearOp) ==> m == View([], [], []))
      && (access.Do? && access.op.PutOp? ==> m == mem.Put(access.op.value) && answers == [Key(mem.Key())])
  {
    assert [access][..0] == [] && Handle(zero, mem, []) == (mem, []);
  }

  /** Three calls that can happen with any number of workers: client `c` puts a value, client `d`
      clears, client `c` reads. The value is gone if and only if both clients have the same worker. */
  lemma ForeignClearLosesTheValueIff<V(!new)>(cfg: Server<V>, zero: V, c: nat, d: nat, v: V)
    returns (schedule: seq<Step<seq<Access<V>>>>)
    requires cfg == LocalServer(cfg.workers, cfg.clients, zero) && cfg.Valid()
    requires c < cfg.clients <= MAX_REGION_NUM && d < cfg.clients
    ensures var log := Rpc.Exec(cfg, schedule).log;
      && |log| == 3 && log[0].client == log[2].client == c && log[1].client == d
      && log[0].req == [Do(PutOp(v))] && log[0].res == [Key(0)]
      && log[1].req == [Do(ClearOp)] && log[2].req == [Read(0)]
      && log[2].res == [Value(if c % cfg.workers == d % cfg.workers then None else Some(v))]
  {
    var put, clear, read: seq<Access<V>> := [Do(PutOp(v))], [Do(ClearOp)], [Read(0)];
    schedule := EveryCallSequenceIsReachable(cfg, [(c, put), (d, clear), (c, read)]);
    ThreeCalls(cfg, zero, Rpc.Exec(cfg, schedule).log, c, d, v);
  }

  lemma MemStep<V>(cfg: Server<V>, zero: V, log: History<V>, i: nat, w: nat)
    requires cfg == LocalServer(cfg.workers, cfg.clients, zero) && i < |log|
    ensures var m := MemAfter(cfg, log[..i], w);
      MemAfter(cfg, log[..i + 1], w) == if log[i].worker == w then Handle(zero, m, log[i].req).0 else m
  {
    assert log[..i + 1][..i] == log[..i];
  }

  lemma ThreeCalls<V(!new)>(cfg: Server<V>, zero: V, log: History<V>, c: nat, d: nat, v: V)
    requires cfg == LocalServer(cfg.workers, cfg.clients, zero) && cfg.Valid() && LogHonest(cfg, log)
    requires LogIs(cfg, log, [(c, [Do(PutOp(v))]), (d, [Do(ClearOp)]), (c, [Read(0)])])
    ensures log[0].res == [Key(0)]
    ensures log[2].res == [Value(if c % cfg.workers == d % cfg.workers then None else Some(v))]
  {
    var w := c % cfg.workers;
    var empty: Store<V> := View([], [], []);
    assert log[..0] == [];
    HonestEvent(cfg, zero, log, 0);
    HandleSingle(zero, empty, Do(PutOp(v)));
    MemStep(cfg, zero, log, 0, w);
    var full := MemAfter(cfg, log[..1], w);
    HandleSingle(zero, full, Do(ClearOp));
    MemStep(cfg, zero, log, 1, w);
    HonestEvent(cfg, zero, log, 2);
    HandleSingle(zero, MemAfter(cfg, log[..2], w), Read(0));
  }
}
