/** One browser pulling from the runtime from one start to the next: when is every block it has pulled
    still in the server's cache at the time its frames are fetched? */
module BrowserRetention {
  import opened Common
  import opened InteractiveRuntime
  import opened AbotProtocol

  /** `eager` describes a client that fetches each block before it pulls again. */
  datatype Settings = Settings(capacity: nat, minBlock: nat, maxBuffered: nat, eager: bool)

  predicate Sensible(cfg: Settings) {
    cfg.capacity > 0 && cfg.minBlock > 0 && cfg.maxBuffered > 0
  }

  /** `inFlight`: taken from the queue, response not yet received.  `waiting`: received, frames
      still being fetched, in order.  `playback`: fetched frames not yet shown.  `buffered` is the
      browser's own count of frames received and not yet shown. */
  datatype Browser = Browser(inFlight: Option<Payload>, waiting: seq<Payload>, playback: nat, buffered: int)

  datatype Sys = Sys(server: State, browser: Browser)

  datatype Action = Server(event: Event) | PullChunk | Deliver | Fetched | FetchFailed | Show

  /** Server-side events until the next start: the producer, control updates, and stop requests. */
  predicate InSession(cfg: Settings, s: State, e: Event) {
    match e
    case Work(_, block) => block.Some? ==> |block.value| >= cfg.minBlock
    case Begin(request) => request.Stop?
    case Pull => false
    case _ => true
  }

  function Act(cfg: Settings, y: Sys, a: Action): Option<Sys> {
    var b := y.browser;
    match a
    case Server(e) =>
      if !InSession(cfg, y.server, e) then None
      else
        var next := Apply(y.server, e);
        if next.None? then None else Some(y.(server := next.value))
    case PullChunk =>
      if b.inFlight.Some? || b.buffered >= cfg.maxBuffered || (cfg.eager && b.waiting != []) then None
      else if y.server.core.queue == [] then Some(y)
      else Some(Sys(Apply(y.server, Pull).value, b.(inFlight := Some(y.server.core.queue[0]))))
    case Deliver =>
      if b.inFlight.None? then None
      else
        var p := b.inFlight.value;
        Some(y.(browser := b.(inFlight := None, waiting := b.waiting + [p], buffered := b.buffered + p.newFrames)))
    case Fetched =>
      if b.waiting == [] then None
      else Some(y.(browser := b.(waiting := b.waiting[1..], playback := b.playback + b.waiting[0].newFrames)))
    case FetchFailed =>
      if b.waiting == [] then None
      else Some(y.(browser := b.(waiting := b.waiting[1..], buffered := b.buffered - b.waiting[0].newFrames)))
    case Show =>
      if b.playback == 0 then None
      else Some(y.(browser := b.(playback := b.playback - 1, buffered := b.buffered - 1)))
  }

  function Run(cfg: Settings, y: Sys, actions: seq<Action>): Option<Sys>
    decreases |actions|
  {
    if actions == [] then Some(y)
    else
      var before := Run(cfg, y, actions[..|actions| - 1]);
      if before.None? then None else Act(cfg, before.value, actions[|actions| - 1])
  }

  /** The runtime as a start request leaves it. */
  ghost predicate SessionStart(cfg: Settings, s: State) {
    && Inv(s) && s.core.capacity == cfg.capacity
    && s.caller == Idle && !s.core.stop && s.core.session.Some?
    && s.produced == [] && s.pulled == [] && s.core.queue == []
    && Live(s) == Some(LoopTest)
  }

  function Connected(s: State): Sys {
    Sys(s, Browser(None, [], 0, 0))
  }

  /** Blocks the browser has taken and not finished fetching. */
  function Unfetched(b: Browser): seq<Payload> {
    b.waiting + if b.inFlight.Some? then [b.inFlight.value] else []
  }

  /** Every frame request the browser may still send is answered with the right frame. */
  ghost predicate AllServed(y: Sys) {
    forall p :: p in Unfetched(y.browser) ==>
                  && p.version in y.server.core.blocks
                  && 1 <= p.version <= |y.server.produced|
                  && y.server.core.blocks[p.version]
                     == BlockOf(y.server.core.frames, y.server.produced, p.version)
  }

  /** `ceil(M / b)`, or one for an eager client: how many blocks can be unfetched at once. */
  function MaxUnfetched(cfg: Settings): nat
    requires Sensible(cfg)
  {
    if cfg.eager then 1 else (cfg.maxBuffered + cfg.minBlock - 1) / cfg.minBlock
  }

  // ----- the bound suffices

  ghost predicate BlocksLarge(cfg: Settings, s: State) {
    && (forall k :: 0 <= k < |s.produced| ==> s.produced[k].newFrames >= cfg.minBlock)
    && (forall i :: 0 <= i < |s.threads| && s.threads[i].Publishing? ==> |s.threads[i].block| >= cfg.minBlock)
  }

  /** No start is under way. */
  predicate SameSession(cfg: Settings, s: State) {
    s.core.capacity == cfg.capacity && (s.caller != Idle ==> s.caller.request.Stop?)
  }

  ghost predicate ServerOk(cfg: Settings, s: State) {
    Inv(s) && SameSession(cfg, s) && BlocksLarge(cfg, s)
  }

  /** What the browser has unfetched is the newest part of what it has pulled. */
  ghost predicate Trailing(unfetched: seq<Payload>, pulled: seq<Payload>) {
    |unfetched| <= |pulled| && pulled[|pulled| - |unfetched|..] == unfetched
  }

  ghost predicate Throttled(cfg: Settings, b: Browser) {
    && NewFrames(b.waiting) + b.playback == b.buffered
    && (b.inFlight.Some? ==> b.buffered < cfg.maxBuffered && (cfg.eager ==> b.waiting == []))
    && (b.waiting != [] ==> NewFrames(b.waiting[..|b.waiting| - 1]) < cfg.maxBuffered)
    && (cfg.eager ==> |b.waiting| <= 1)
  }

  /** What is unfetched, or may still be pulled, is among the newest blocks. */
  ghost predicate Close(cfg: Settings, c: Core, unfetched: seq<Payload>)
    requires Sensible(cfg)
  {
    forall p :: p in unfetched || p in c.queue ==>
                  1 <= p.version <= c.version && c.version - p.version <= MaxUnfetched(cfg) + cfg.capacity
  }

  /** Draining takes payloads out of the line, but by then no producer is left. */
  ghost predicate SysOk(cfg: Settings, y: Sys)
    requires Sensible(cfg)
  {
    && ServerOk(cfg, y.server)
    && Trailing(Unfetched(y.browser), y.server.pulled)
    && Throttled(cfg, y.browser)
    && (Drained(y.server) ==> Close(cfg, y.server.core, Unfetched(y.browser)))
  }

  lemma ServerStepOk(cfg: Settings, s: State, e: Event, t: State)
    requires Sensible(cfg) && ServerOk(cfg, s) && Apply(s, e) == Some(t) && (InSession(cfg, s, e) || e == Pull)
    ensures ServerOk(cfg, t)
  {
    StepKeepsInv(s, e, t);
    SessionKept(cfg, s, e, t);
    BlocksStayLarge(cfg, s, e, t);
  }

  lemma SessionKept(cfg: Settings, s: State, e: Event, t: State)
    requires SameSession(cfg, s) && Apply(s, e) == Some(t) && (InSession(cfg, s, e) || e == Pull)
    ensures SameSession(cfg, t)
    ensures e != Pull ==> t.pulled == s.pulled
    ensures e == Pull && s.core.queue != [] ==> t.pulled == s.pulled + [s.core.queue[0]]
  {
  }

  lemma BlocksStayLarge(cfg: Settings, s: State, e: Event, t: State)
    requires SameSession(cfg, s) && BlocksLarge(cfg, s) && Apply(s, e) == Some(t)
    requires InSession(cfg, s, e) || e == Pull
    ensures BlocksLarge(cfg, t)
  {
    match e
    case Work(i, block) =>
      assert forall j :: 0 <= j < |s.threads| && j != i ==> t.threads[j] == s.threads[j];
    case _ =>
  }

  /** Once draining has begun nothing is published, and the queue only shrinks. */
  lemma DrainedStep(cfg: Settings, s: State, e: Event, t: State)
    requires ControlInv(s) && SameSession(cfg, s) && Drained(s) && Apply(s, e) == Some(t) && InSession(cfg, s, e)
    ensures t.core.version == s.core.version && (forall p :: p in t.core.queue ==> p in s.core.queue)
  {
    NoneLive(s);
  }

  lemma NoneLive(s: State)
    requires ControlInv(s) && Drained(s)
    ensures forall i :: 0 <= i < |s.threads| ==> s.threads[i] == Done
  {
  }

  /** Draining begins with the lock, before anything is taken out. */
  lemma DrainBegins(cfg: Settings, s: State, e: Event, t: State)
    requires SameSession(cfg, s) && !Drained(s) && Drained(t) && Apply(s, e) == Some(t) && InSession(cfg, s, e)
    ensures t.core == s.core
  {
  }

  lemma {:induction false} NewFramesCut(payloads: seq<Payload>)
    requires payloads != []
    ensures NewFrames(payloads) == payloads[0].newFrames + NewFrames(payloads[1..])
  {
    var n := |payloads| - 1;
    if n == 0 {
      assert payloads[1..] == [];
    } else {
      NewFramesCut(payloads[..n]);
      assert payloads[1..][..n - 1] == payloads[..n][1..];
    }
  }

  lemma ActOk(cfg: Settings, y: Sys, a: Action, z: Sys)
    requires Sensible(cfg) && SysOk(cfg, y) && Act(cfg, y, a) == Some(z)
    ensures SysOk(cfg, z)
  {
    match a
    case Server(e) => ServerActOk(cfg, y, e, z);
    case PullChunk => PullActOk(cfg, y, z);
    case _ => BrowserActOk(cfg, y, a, z);
  }

  lemma ServerActOk(cfg: Settings, y: Sys, e: Event, z: Sys)
    requires Sensible(cfg) && SysOk(cfg, y) && Act(cfg, y, Server(e)) == Some(z)
    ensures SysOk(cfg, z)
  {
    ServerStepOk(cfg, y.server, e, z.server);
    ServerKeepsBrowser(cfg, y, e, z);
    ServerKeepsClose(cfg, y, e, z);
  }

  lemma ServerKeepsBrowser(cfg: Settings, y: Sys, e: Event, z: Sys)
    requires SameSession(cfg, y.server) && Act(cfg, y, Server(e)) == Some(z)
    ensures z.browser == y.browser && z.server.pulled == y.server.pulled
  {
    SessionKept(cfg, y.server, e, z.server);
  }

  lemma PullActOk(cfg: Settings, y: Sys, z: Sys)
    requires Sensible(cfg) && SysOk(cfg, y) && Act(cfg, y, PullChunk) == Some(z)
    ensures SysOk(cfg, z)
  {
    PullServerOk(cfg, y, z);
    PullOk(cfg, y, z);
    PullKeepsClose(cfg, y, z);
  }

  lemma ServerKeepsClose(cfg: Settings, y: Sys, e: Event, z: Sys)
    requires Sensible(cfg) && SysOk(cfg, y) && Act(cfg, y, Server(e)) == Some(z)
    ensures Drained(z.server) ==> Close(cfg, z.server.core, Unfetched(z.browser))
  {
    if Drained(y.server) {
      DrainedStep(cfg, y.server, e, z.server);
    } else if Drained(z.server) {
      DrainBegins(cfg, y.server, e, z.server);
      CloseInLine(cfg, y);
    }
  }

  lemma PullKeepsClose(cfg: Settings, y: Sys, z: Sys)
    requires Sensible(cfg) && Act(cfg, y, PullChunk) == Some(z)
    requires Drained(y.server) ==> Close(cfg, y.server.core, Unfetched(y.browser))
    ensures Drained(z.server) ==> Close(cfg, z.server.core, Unfetched(z.browser))
  {
    if y.server.core.queue != [] {
      assert Unfetched(z.browser) == Unfetched(y.browser) + [y.server.core.queue[0]];
    }
  }

  lemma PullServerOk(cfg: Settings, y: Sys, z: Sys)
    requires Sensible(cfg) && ServerOk(cfg, y.server) && Act(cfg, y, PullChunk) == Some(z)
    ensures ServerOk(cfg, z.server)
  {
    assert Apply(y.server, Pull) == Some(z.server);
    ServerStepOk(cfg, y.server, Pull, z.server);
  }

  lemma PullOk(cfg: Settings, y: Sys, z: Sys)
    requires Act(cfg, y, PullChunk) == Some(z)
    requires Trailing(Unfetched(y.browser), y.server.pulled) && Throttled(cfg, y.browser)
    ensures Trailing(Unfetched(z.browser), z.server.pulled) && Throttled(cfg, z.browser)
  {
    if y.server.core.queue != [] {
      assert Unfetched(z.browser) == Unfetched(y.browser) + [y.server.core.queue[0]];
    }
  }

  lemma BrowserActOk(cfg: Settings, y: Sys, a: Action, z: Sys)
    requires Sensible(cfg) && Act(cfg, y, a) == Some(z) && !a.Server? && !a.PullChunk?
    requires Trailing(Unfetched(y.browser), y.server.pulled) && Throttled(cfg, y.browser)
    ensures z.server == y.server && (forall p :: p in Unfetched(z.browser) ==> p in Unfetched(y.browser))
    ensures Trailing(Unfetched(z.browser), z.server.pulled) && Throttled(cfg, z.browser)
  {
    var waiting := y.browser.waiting;
    if a.Deliver? {
      assert Unfetched(z.browser) == Unfetched(y.browser);
      assert z.browser.waiting[..|waiting|] == waiting;
    } else if !a.Show? {
      assert Unfetched(z.browser) == Unfetched(y.browser)[1..];
      FirstCut(waiting);
    }
  }

  lemma FirstCut(waiting: seq<Payload>)
    requires waiting != []
    ensures NewFrames(waiting) == waiting[0].newFrames + NewFrames(waiting[1..])
    ensures |waiting| > 1 ==> NewFrames(waiting[1..][..|waiting| - 2]) <= NewFrames(waiting[..|waiting| - 1])
  {
    NewFramesCut(waiting);
    if |waiting| > 1 {
      NewFramesCut(waiting[..|waiting| - 1]);
      assert waiting[..|waiting| - 1][1..] == waiting[1..][..|waiting| - 2];
    }
  }

  lemma {:induction false} RunOk(cfg: Settings, y: Sys, actions: seq<Action>, z: Sys)
    requires Sensible(cfg) && SysOk(cfg, y) && Run(cfg, y, actions) == Some(z)
    ensures SysOk(cfg, z)
    decreases |actions|
  {
    if actions != [] {
      var front := actions[..|actions| - 1];
      var before := Run(cfg, y, front).value;
      RunOk(cfg, y, front, before);
      ActOk(cfg, before, actions[|actions| - 1], z);
    }
  }

  lemma {:induction false} ManyBlocksManyFrames(cfg: Settings, payloads: seq<Payload>)
    requires forall k :: 0 <= k < |payloads| ==> payloads[k].newFrames >= cfg.minBlock
    ensures |payloads| * cfg.minBlock <= NewFrames(payloads)
  {
    if payloads != [] {
      ManyBlocksManyFrames(cfg, payloads[..|payloads| - 1]);
    }
  }

  lemma FewBelow(n: nat, b: nat, m: nat)
    requires b > 0 && n * b < m
    ensures n < (m + b - 1) / b
  {
    var q := (m + b - 1) / b;
    if q <= n {
      MultiplyMonotone(q, n, b);
    }
  }

  /** Nothing produced is missing from the line but, after a stop signal, possibly the newest. */
  ghost predicate Lined(s: State) {
    || s.pulled + s.core.queue + Held(s) == s.produced
    || (Held(s) == [] && s.produced != [] && s.pulled + s.core.queue == s.produced[..|s.produced| - 1])
  }

  /** What retention needs to know about the server. */
  ghost predicate ServerFacts(s: State) {
    && (!Drained(s) ==> Lined(s))
    && |s.core.queue| <= s.core.capacity && |Held(s)| <= 1 && |s.produced| == s.core.version
    && (forall k :: 0 <= k < |s.produced| ==> s.produced[k].version == k + 1)
    && (forall v :: v in s.core.blocks <==> InWindow(v, s.core.version))
    && (forall v :: v in s.core.blocks && v <= |s.produced| ==>
          s.core.blocks[v] == BlockOf(s.core.frames, s.produced, v))
  }

  lemma FactsHold(s: State)
    requires Inv(s)
    ensures ServerFacts(s)
  {
    VersionsCount(s.produced, s.sessions, s.registers);
    FifoMeans(s);
    assert WindowCached(s.core.blocks, s.core.version);
    assert CacheOk(s.core.blocks, s.core.version, s.core.frames, s.produced);
  }

  lemma VersionsCount(produced: seq<Payload>, sessions: nat, registers: set<(set<Control>, int)>)
    requires ProducedOk(produced, sessions, registers)
    ensures forall k :: 0 <= k < |produced| ==> produced[k].version == k + 1
  {
    forall k | 0 <= k < |produced| ensures produced[k].version == k + 1 {
      assert PayloadOk(k, produced, sessions, registers);
    }
  }

  lemma LineAt(s: State, at: nat)
    requires Lined(s) && at < |s.pulled| + |s.core.queue|
    ensures |s.pulled| + |s.core.queue| <= |s.produced| <= |s.pulled| + |s.core.queue| + 1 || |Held(s)| > 1
    ensures at < |s.produced| && (s.pulled + s.core.queue)[at] == s.produced[at]
  {
    assert (s.pulled + s.core.queue + Held(s))[at] == (s.pulled + s.core.queue)[at];
  }

  lemma UnfetchedAt(y: Sys, k: nat)
    requires Lined(y.server) && Trailing(Unfetched(y.browser), y.server.pulled)
    requires k < |Unfetched(y.browser)|
    ensures
      var at := |y.server.pulled| - |Unfetched(y.browser)| + k;
      && 0 <= at < |y.server.pulled| && at < |y.server.produced|
      && Unfetched(y.browser)[k] == y.server.produced[at]
  {
    var at := |y.server.pulled| - |Unfetched(y.browser)| + k;
    LineAt(y.server, at);
    assert y.server.pulled[at] == Unfetched(y.browser)[k];
  }

  lemma UnfetchedBounded(cfg: Settings, y: Sys)
    requires Sensible(cfg) && BlocksLarge(cfg, y.server) && Lined(y.server)
    requires Trailing(Unfetched(y.browser), y.server.pulled) && Throttled(cfg, y.browser)
    ensures |Unfetched(y.browser)| <= MaxUnfetched(cfg)
  {
    var b := y.browser;
    forall k | 0 <= k < |Unfetched(b)| ensures Unfetched(b)[k].newFrames >= cfg.minBlock {
      UnfetchedAt(y, k);
    }
    FewBelow(0, cfg.minBlock, cfg.maxBuffered);
    if Unfetched(b) != [] && !cfg.eager {
      AllButNewest(cfg, b);
    }
  }

  lemma AllButNewest(cfg: Settings, b: Browser)
    requires Sensible(cfg) && Throttled(cfg, b) && Unfetched(b) != []
    requires forall k :: 0 <= k < |Unfetched(b)| ==> Unfetched(b)[k].newFrames >= cfg.minBlock
    ensures |Unfetched(b)| <= (cfg.maxBuffered + cfg.minBlock - 1) / cfg.minBlock
  {
    var older := if b.inFlight.Some? then b.waiting else b.waiting[..|b.waiting| - 1];
    assert forall k :: 0 <= k < |older| ==> older[k] == Unfetched(b)[k];
    ManyBlocksManyFrames(cfg, older);
    FewBelow(|older|, cfg.minBlock, cfg.maxBuffered);
  }

  lemma CloseInLine(cfg: Settings, y: Sys)
    requires Sensible(cfg) && SysOk(cfg, y) && !Drained(y.server)
    ensures Close(cfg, y.server.core, Unfetched(y.browser))
  {
    FactsHold(y.server);
    UnfetchedBounded(cfg, y);
    LinedIsClose(y, MaxUnfetched(cfg));
  }

  lemma LinedIsClose(y: Sys, most: nat)
    requires Lined(y.server) && ServerFacts(y.server)
    requires Trailing(Unfetched(y.browser), y.server.pulled) && |Unfetched(y.browser)| <= most
    ensures
      var c := y.server.core;
      forall p :: p in Unfetched(y.browser) || p in c.queue ==>
                    1 <= p.version <= c.version && c.version - p.version <= most + c.capacity
  {
    var s, all := y.server, Unfetched(y.browser);
    forall p | p in all || p in s.core.queue
      ensures 1 <= p.version <= s.core.version && s.core.version - p.version <= most + s.core.capacity
    {
      if p in all {
        var k :| 0 <= k < |all| && all[k] == p;
        UnfetchedAt(y, k);
        LineAt(s, |s.pulled| - |all| + k);
      } else {
        var k :| 0 <= k < |s.core.queue| && s.core.queue[k] == p;
        LineAt(s, |s.pulled| + k);
      }
    }
  }

  lemma CloseServed(cfg: Settings, y: Sys)
    requires Sensible(cfg) && ServerFacts(y.server) && Close(cfg, y.server.core, Unfetched(y.browser))
    requires MaxUnfetched(cfg) + cfg.capacity <= 11
    ensures AllServed(y)
  {
    forall p | p in Unfetched(y.browser) ensures InWindow(p.version, y.server.core.version) {
    }
  }

  lemma BoundSuffices(cfg: Settings, y: Sys)
    requires Sensible(cfg) && SysOk(cfg, y) && MaxUnfetched(cfg) + cfg.capacity <= 11
    ensures AllServed(y)
  {
    FactsHold(y.server);
    if !Drained(y.server) {
      CloseInLine(cfg, y);
    }
    CloseServed(cfg, y);
  }

  // ----- the bound is needed: a run that evicts an unfetched block

  ghost predicate Reach(cfg: Settings, y: Sys, z: Sys) {
    exists actions :: Run(cfg, y, actions) == Some(z)
  }

  lemma ReachSelf(cfg: Settings, y: Sys)
    ensures Reach(cfg, y, y)
  {
    assert Run(cfg, y, []) == Some(y);
  }

  lemma ReachStep(cfg: Settings, from: Sys, y: Sys, a: Action, z: Sys)
    requires Reach(cfg, from, y) && Act(cfg, y, a) == Some(z)
    ensures Reach(cfg, from, z)
  {
    var actions :| Run(cfg, from, actions) == Some(y);
    assert (actions + [a])[..|actions|] == actions;
    assert Run(cfg, from, actions + [a]) == Some(z);
  }

  predicate Running(cfg: Settings, s: State) {
    s.core.capacity == cfg.capacity && s.caller == Idle && !s.core.stop && s.core.session.Some?
  }

  /** The producer is at the top of its loop and has controls to work with. */
  predicate Steady(cfg: Settings, s: State) {
    && Running(cfg, s) && s.core.controls != {}
    && s.core.worker.Some? && s.core.worker.value < |s.threads| && s.threads[s.core.worker.value] == LoopTest
  }

  /** The state after the producer's lock section for `block`, its thread about to put. */
  function AfterPublish(s: State, block: seq<Frame>): State
    requires s.core.session.Some?
  {
    var core := PublishOn(s.core, block);
    var payload := PayloadFor(core, s.core.session.value, block, s.core.controls, s.core.revision);
    s.(core := core, produced := s.produced + [payload])
  }

  function NewestPayload(s: State, block: seq<Frame>): Payload
    requires s.core.session.Some?
  {
    PayloadFor(PublishOn(s.core, block), s.core.session.value, block, s.core.controls, s.core.revision)
  }

  function AfterPut(s: State, block: seq<Frame>): State
    requires s.core.session.Some?
  {
    var t := AfterPublish(s, block);
    t.(core := t.core.(queue := s.core.queue + [NewestPayload(s, block)]))
  }

  lemma MoveTwice(s: State, i: nat, a: Pc, b: Pc)
    requires i < |s.threads|
    ensures Move(Move(s, i, a), i, b) == Move(s, i, b)
    ensures s.threads[i] == b ==> Move(s, i, b) == s
  {
    assert s.threads[i := a][i := b] == s.threads[i := b];
    if s.threads[i] == b {
      assert s.threads[i := b] == s.threads;
    }
  }

  /** One producer step, with the thread's place written explicitly. */
  lemma WorkReaches(cfg: Settings, from: Sys, s: State, i: nat, b: Browser, pc: Pc, block: Option<seq<Frame>>,
                    t: State, next: Pc)
    requires i < |s.threads| == |t.threads| && pc != Done
    requires Reach(cfg, from, Sys(Move(s, i, pc), b))
    requires block.Some? ==> |block.value| >= cfg.minBlock
    requires WorkStep(Move(s, i, pc), i, block) == Some(Move(t, i, next))
    ensures Reach(cfg, from, Sys(Move(t, i, next), b))
  {
    ReachStep(cfg, from, Sys(Move(s, i, pc), b), Server(Work(i, block)), Sys(Move(t, i, next), b));
  }

  lemma PublishReachable(cfg: Settings, from: Sys, s: State, b: Browser, block: seq<Frame>)
    requires Reach(cfg, from, Sys(s, b)) && Steady(cfg, s) && |block| >= cfg.minBlock && block != []
    ensures
      var put := PutTest(NewestPayload(s, block));
      Reach(cfg, from, Sys(Move(AfterPublish(s, block), s.core.worker.value, put), b))
  {
    var i := s.core.worker.value;
    var of, controls, revision := s.core.session.value, s.core.controls, s.core.revision;
    var making := Generating(of, controls, revision);
    var made := Publishing(of, controls, revision, block);
    MoveTwice(s, i, LoopTest, LoopTest);
    MoveTwice(s, i, LoopTest, StopTest);
    WorkReaches(cfg, from, s, i, b, LoopTest, None, s, StopTest);
    MoveTwice(s, i, StopTest, Snapshot);
    WorkReaches(cfg, from, s, i, b, StopTest, None, s, Snapshot);
    MoveTwice(s, i, Snapshot, making);
    WorkReaches(cfg, from, s, i, b, Snapshot, None, s, making);
    MoveTwice(s, i, making, made);
    WorkReaches(cfg, from, s, i, b, making, Some(block), s, made);
    PublishStep(s, i, block);
    WorkReaches(cfg, from, s, i, b, made, None, AfterPublish(s, block), PutTest(NewestPayload(s, block)));
  }

  lemma PublishStep(s: State, i: nat, block: seq<Frame>)
    requires s.core.session.Some? && s.caller == Idle && !s.core.stop && i < |s.threads| && block != []
    ensures
      var made := Publishing(s.core.session.value, s.core.controls, s.core.revision, block);
      WorkStep(Move(s, i, made), i, None) == Some(Move(AfterPublish(s, block), i, PutTest(NewestPayload(s, block))))
  {
    var made := Publishing(s.core.session.value, s.core.controls, s.core.revision, block);
    var t := AfterPublish(s, block);
    var put := PutTest(NewestPayload(s, block));
    assert s.threads[i := made][i := put] == t.threads[i := put];
  }

  lemma PutReachable(cfg: Settings, from: Sys, s: State, b: Browser, block: seq<Frame>)
    requires Reach(cfg, from, Sys(s, b)) && Steady(cfg, s) && |block| >= cfg.minBlock && block != []
    requires |s.core.queue| < s.core.capacity
    ensures Reach(cfg, from, Sys(AfterPut(s, block), b)) && Steady(cfg, AfterPut(s, block))
  {
    PublishReachable(cfg, from, s, b, block);
    var i := s.core.worker.value;
    var p := NewestPayload(s, block);
    var t := AfterPublish(s, block);
    var u := AfterPut(s, block);
    MoveTwice(t, i, PutTest(p), PutTry(p));
    WorkReaches(cfg, from, t, i, b, PutTest(p), None, t, PutTry(p));
    MoveTwice(u, i, PutTry(p), LoopTest);
    WorkReaches(cfg, from, t, i, b, PutTry(p), None, u, LoopTest);
  }

  /** `k` blocks received and none fetched, `q` queued, the oldest of them being version 1. */
  ghost predicate Filled(cfg: Settings, y: Sys, k: nat, q: nat) {
    && Steady(cfg, y.server) && y.server.core.version == k + q && |y.server.core.queue| == q
    && y.browser.inFlight.None? && |y.browser.waiting| == k && y.browser.playback == 0
    && y.browser.buffered == k * cfg.minBlock
    && (k > 0 ==> y.browser.waiting[0].version == 1)
  }

  lemma BelowThrottle(cfg: Settings, k: nat)
    requires Sensible(cfg) && k < MaxUnfetched(cfg)
    ensures k * cfg.minBlock < cfg.maxBuffered
  {
    if !cfg.eager {
      var q := (cfg.maxBuffered + cfg.minBlock - 1) / cfg.minBlock;
      MultiplyMonotone(k + 1, q, cfg.minBlock);
      OneMore(k, cfg.minBlock);
    }
  }

  /** The browser takes and receives the one queued payload. */
  lemma Receive(cfg: Settings, from: Sys, s: State, b: Browser, p: Payload) returns (t: State)
    requires Reach(cfg, from, Sys(s, b)) && s.core.queue == [p]
    requires b.inFlight.None? && b.buffered < cfg.maxBuffered && (cfg.eager ==> b.waiting == [])
    ensures t == s.(core := s.core.(queue := []), pulled := s.pulled + [p])
    ensures Reach(cfg, from, Sys(t, b.(waiting := b.waiting + [p], buffered := b.buffered + p.newFrames)))
  {
    assert s.core.queue[1..] == [];
    t := s.(core := s.core.(queue := []), pulled := s.pulled + [p]);
    ReachStep(cfg, from, Sys(s, b), PullChunk, Sys(t, b.(inFlight := Some(p))));
    ReachStep(cfg, from, Sys(t, b.(inFlight := Some(p))), Deliver,
              Sys(t, b.(waiting := b.waiting + [p], buffered := b.buffered + p.newFrames)));
  }

  lemma ReceiveOne(cfg: Settings, from: Sys, y: Sys, k: nat) returns (z: Sys)
    requires Sensible(cfg) && Reach(cfg, from, y) && Filled(cfg, y, k, 0) && k < MaxUnfetched(cfg)
    ensures Reach(cfg, from, z) && Filled(cfg, z, k + 1, 0)
  {
    BelowThrottle(cfg, k);
    var block: seq<Frame> := seq(cfg.minBlock, _ => 0);
    var p := NewestPayload(y.server, block);
    PutReachable(cfg, from, y.server, y.browser, block);
    var ready := AfterPut(y.server, block);
    assert y.server.core.queue == [];
    var t := Receive(cfg, from, ready, y.browser, p);
    z := Sys(t, y.browser.(waiting := y.browser.waiting + [p], buffered := y.browser.buffered + p.newFrames));
    OneMore(k, cfg.minBlock);
  }

  lemma SomeUnfetched(cfg: Settings)
    requires Sensible(cfg)
    ensures MaxUnfetched(cfg) >= 1
  {
    FewBelow(0, cfg.minBlock, cfg.maxBuffered);
  }

  lemma {:induction false} FillWaiting(cfg: Settings, from: Sys, y: Sys, k: nat) returns (z: Sys)
    requires Sensible(cfg) && Reach(cfg, from, y) && Filled(cfg, y, k, 0) && k <= MaxUnfetched(cfg)
    ensures Reach(cfg, from, z) && Filled(cfg, z, MaxUnfetched(cfg), 0)
    decreases MaxUnfetched(cfg) - k
  {
    if k == MaxUnfetched(cfg) {
      return y;
    }
    z := ReceiveOne(cfg, from, y, k);
    z := FillWaiting(cfg, from, z, k + 1);
  }

  lemma {:induction false} FillQueue(cfg: Settings, from: Sys, y: Sys, k: nat, q: nat) returns (z: Sys)
    requires Sensible(cfg) && Reach(cfg, from, y) && Filled(cfg, y, k, q) && q <= cfg.capacity
    ensures Reach(cfg, from, z) && Filled(cfg, z, k, cfg.capacity)
    decreases cfg.capacity - q
  {
    if q == cfg.capacity {
      return y;
    }
    var block: seq<Frame> := seq(cfg.minBlock, _ => 0);
    PutReachable(cfg, from, y.server, y.browser, block);
    z := FillQueue(cfg, from, Sys(AfterPut(y.server, block), y.browser), k, q + 1);
  }

  lemma PressControls(cfg: Settings, s: State) returns (t: State)
    requires Sensible(cfg) && SessionStart(cfg, s)
    ensures Reach(cfg, Connected(s), Connected(t)) && Filled(cfg, Connected(t), 0, 0)
  {
    var a := Server(SetControls({W}, None));
    t := Apply(s, a.event).value;
    ReachSelf(cfg, Connected(s));
    ReachStep(cfg, Connected(s), Connected(s), a, Connected(t));
  }

  /** A full server and browser, one publication later. */
  lemma Overfill(cfg: Settings, s: State) returns (z: Sys)
    requires Sensible(cfg) && SessionStart(cfg, s)
    ensures Reach(cfg, Connected(s), z)
    ensures z.server.core.version == MaxUnfetched(cfg) + cfg.capacity + 1
    ensures z.browser.waiting != [] && z.browser.waiting[0].version == 1
  {
    var t := PressControls(cfg, s);
    SomeUnfetched(cfg);
    var y := FillWaiting(cfg, Connected(s), Connected(t), 0);
    y := FillQueue(cfg, Connected(s), y, MaxUnfetched(cfg), 0);
    z := PublishOnce(cfg, Connected(s), y);
  }

  lemma PublishOnce(cfg: Settings, from: Sys, y: Sys) returns (z: Sys)
    requires Sensible(cfg) && Reach(cfg, from, y) && Steady(cfg, y.server)
    ensures Reach(cfg, from, z) && z.browser == y.browser
    ensures z.server.core.version == y.server.core.version + 1
  {
    var block: seq<Frame> := seq(cfg.minBlock, _ => 0);
    PublishReachable(cfg, from, y.server, y.browser, block);
    var i := y.server.core.worker.value;
    z := Sys(Move(AfterPublish(y.server, block), i, PutTest(NewestPayload(y.server, block))), y.browser);
  }

  lemma OldestEvicted(y: Sys)
    requires ServerFacts(y.server) && y.server.core.version > 12
    requires y.browser.waiting != [] && y.browser.waiting[0].version == 1
    ensures !AllServed(y)
  {
    assert y.browser.waiting[0] in Unfetched(y.browser);
    assert !InWindow(1, y.server.core.version);
  }

  lemma BoundNeeded(cfg: Settings, s: State) returns (actions: seq<Action>)
    requires Sensible(cfg) && SessionStart(cfg, s) && MaxUnfetched(cfg) + cfg.capacity > 11
    ensures Run(cfg, Connected(s), actions).Some? && !AllServed(Run(cfg, Connected(s), actions).value)
  {
    var z := Overfill(cfg, s);
    actions :| Run(cfg, Connected(s), actions) == Some(z);
    StartOk(cfg, s);
    RunOk(cfg, Connected(s), actions, z);
    FactsHold(z.server);
    OldestEvicted(z);
  }

  lemma StartOk(cfg: Settings, s: State)
    requires Sensible(cfg) && SessionStart(cfg, s)
    ensures SysOk(cfg, Connected(s))
  {
    assert forall i :: 0 <= i < |s.threads| && s.threads[i] != Done ==> s.core.worker == Some(i);
  }

  /** Every start request that completes leaves the runtime in such a state. */
  lemma StartReachesSession(cfg: Settings, s: State, t: State)
    requires Inv(s) && s.core.capacity == cfg.capacity
    requires s.caller.Clearing? && s.caller.request.Start? && Apply(s, Finish) == Some(t)
    ensures SessionStart(cfg, t)
  {
    StepKeepsInv(s, Finish, t);
    StartShape(s, t);
  }

  lemma StartShape(s: State, t: State)
    requires s.caller.Clearing? && s.caller.request.Start? && Apply(s, Finish) == Some(t)
    ensures t.core.capacity == s.core.capacity && t.caller == Idle && !t.core.stop && t.core.session.Some?
    ensures t.produced == [] && t.pulled == [] && t.core.queue == [] && Live(t) == Some(LoopTest)
  {
    assert t.threads[|s.threads|] == LoopTest;
  }

  /** Retention, exactly: over all runs until the next start, stop requests included, every unfetched
      block stays served if and only if the browser's share and the queue's capacity together stay
      within eleven blocks. */
  lemma RetentionExactly(cfg: Settings, s: State)
    requires Sensible(cfg) && SessionStart(cfg, s)
    ensures (forall actions :: Run(cfg, Connected(s), actions).Some? ==>
                                 AllServed(Run(cfg, Connected(s), actions).value))
            <==> MaxUnfetched(cfg) + cfg.capacity <= 11
  {
    if MaxUnfetched(cfg) + cfg.capacity <= 11 {
      forall actions | Run(cfg, Connected(s), actions).Some?
        ensures AllServed(Run(cfg, Connected(s), actions).value)
      {
        StartOk(cfg, s);
        RunOk(cfg, Connected(s), actions, Run(cfg, Connected(s), actions).value);
        BoundSuffices(cfg, Run(cfg, Connected(s), actions).value);
      }
    } else {
      var actions := BoundNeeded(cfg, s);
    }
  }
}
