/** The state that the ABot HTTP handlers and the background producer share, one operation per
    lock section.  Each operation is a function on `Core`; the class below performs the same
    operations in place, field by field. */
module InteractiveRuntime {
  import opened Common

  datatype Control = W | A | S | D | I | J | K | L

  /** A decoded (and, in the block cache, encoded) image; its content plays no role. */
  type Frame = nat

  const CACHED_BLOCKS := 12
  const DEFAULT_OUTPUT_QUEUE_SIZE := 4

  /** A chunk message.  `session` names the causal session that generated it; the browser does
      not see that field, it lets the model say which session a queued chunk belongs to. */
  datatype Payload = Payload(
    session: nat, chunk: nat, newFrames: nat, totalFrames: nat,
    controls: set<Control>, revision: int, version: nat)

  datatype Core = Core(
    capacity: nat, session: Option<nat>, frames: seq<Frame>, chunkIndex: nat, version: nat,
    blocks: map<nat, seq<Frame>>, queue: seq<Payload>, stop: bool,
    controls: set<Control>, revision: int, worker: Option<nat>)

  function InitialCore(capacity: nat): Core {
    Core(capacity, None, [], 0, 0, map[], [], false, {}, 0, None)
  }

  // ----- the block cache

  function Newer(blocks: map<nat, seq<Frame>>, v: nat): set<nat> {
    set w | w in blocks && v < w
  }

  /** Keep a block exactly when fewer than twelve cached blocks are newer. */
  function Evict(blocks: map<nat, seq<Frame>>): map<nat, seq<Frame>> {
    map v | v in blocks && |Newer(blocks, v)| < CACHED_BLOCKS :: blocks[v]
  }

  function CacheBlock(c: Core, block: seq<Frame>): Core {
    c.(version := c.version + 1, blocks := Evict(c.blocks[c.version + 1 := block]))
  }

  /** The newest `min(12, version)` versions. */
  ghost predicate InWindow(v: int, version: nat) {
    1 <= v <= version && version - v < CACHED_BLOCKS
  }

  ghost predicate WindowCached(blocks: map<nat, seq<Frame>>, version: nat) {
    forall v :: v in blocks <==> InWindow(v, version)
  }

  lemma NewerInRun(blocks: map<nat, seq<Frame>>, v: nat, n: nat)
    requires v <= n
    requires forall w: nat :: v < w ==> (w in blocks <==> w <= n)
    ensures |Newer(blocks, v)| == n - v
  {
    var newer: set<int> := Newer(blocks, v);
    assert newer == Range(v + 1, n);
    RangeSize(v + 1, n);
  }

  lemma CachingKeepsWindow(c: Core, block: seq<Frame>)
    requires WindowCached(c.blocks, c.version)
    ensures WindowCached(CacheBlock(c, block).blocks, c.version + 1)
    ensures CacheBlock(c, block).blocks[c.version + 1] == block
    ensures forall v :: InWindow(v, c.version + 1) && v <= c.version ==>
                          v in c.blocks && CacheBlock(c, block).blocks[v] == c.blocks[v]
  {
    var n := c.version + 1;
    var added := c.blocks[n := block];
    forall v: nat | v in added
      ensures |Newer(added, v)| == n - v
    {
      NewerInRun(added, v, n);
    }
  }

  // ----- the control register

  predicate Stale(c: Core, revision: Option<int>) {
    revision.Some? && revision.value < c.revision
  }

  function SetControlsOn(c: Core, controls: set<Control>, revision: Option<int>): Core {
    if c.session.None? || Stale(c, revision) then c
    else c.(controls := controls, revision := if revision.None? then c.revision + 1 else revision.value)
  }

  /** One update: without a session or with a revision below the register's it changes nothing;
      otherwise the register holds exactly its controls, and its revision or, for one without, the
      next revision, so that what a client sent under the old revision is stale from then on. */
  lemma UpdateEffect(c: Core, controls: set<Control>, revision: Option<int>)
    ensures
      var d := SetControlsOn(c, controls, revision);
      && d == c.(controls := d.controls, revision := d.revision)
      && (c.session.None? || (revision.Some? && revision.value < c.revision) ==> d == c)
      && (c.session.Some? && revision.Some? && revision.value >= c.revision ==>
            d.controls == controls && d.revision == revision.value)
      && (c.session.Some? && revision.None? ==>
            d.controls == controls && d.revision == c.revision + 1 && Stale(d, Some(c.revision)))
  {
  }

  // ----- the producer's lock section after a block was generated

  /** A non-empty block: extend the video, count it, cache it. */
  function PublishOn(c: Core, block: seq<Frame>): Core {
    CacheBlock(c.(frames := c.frames + block, chunkIndex := c.chunkIndex + 1), block)
  }

  /** The payload built in the same lock section, from the state after `PublishOn`. */
  function PayloadFor(c: Core, session: nat, block: seq<Frame>, controls: set<Control>, revision: int): Payload {
    Payload(session, c.chunkIndex, |block|, |c.frames|, controls, revision, c.version)
  }

  // ----- start and stop

  function SignalStopOn(c: Core): Core {
    c.(stop := true)
  }

  function DetachOn(c: Core, target: Option<nat>): Core {
    if c.worker == target then c.(worker := None) else c
  }

  function StartSessionOn(c: Core, session: nat, controls: set<Control>, worker: nat): Core {
    Core(c.capacity, Some(session), [], 0, 0, map[], [], false, controls, 0, Some(worker))
  }

  function EndSessionOn(c: Core): Core {
    c.(session := None, controls := {}, queue := [])
  }

  /** The answer to a request for a frame of a cached block. */
  function FrameAt(c: Core, version: int, index: int): Option<Frame> {
    if version in c.blocks && 0 <= index < |c.blocks[version]| then Some(c.blocks[version][index]) else None
  }

  class Runtime {
    const capacity: nat
    var session: Option<nat>
    var frames: seq<Frame>
    var chunkIndex: nat
    var version: nat
    var blocks: map<nat, seq<Frame>>
    var queue: seq<Payload>
    var stopEvent: bool
    var controls: set<Control>
    var revision: int
    var worker: Option<nat>

    ghost function View(): Core
      reads this
    {
      Core(capacity, session, frames, chunkIndex, version, blocks, queue, stopEvent, controls, revision, worker)
    }

    constructor (capacity: nat)
      ensures View() == InitialCore(capacity)
    {
      this.capacity := capacity;
      session, frames, chunkIndex, version := None, [], 0, 0;
      blocks, queue, stopEvent := map[], [], false;
      controls, revision, worker := {}, 0, None;
    }

    /** The checked construction: `None` stands for the ValueError. */
    static method Create(controlLatentFrames: int, outputQueueSize: int) returns (r: Option<Runtime>)
      ensures r.Some? <==> controlLatentFrames in {1, 2, 3} && outputQueueSize > 0
      ensures r.Some? ==> fresh(r.value) && r.value.View() == InitialCore(outputQueueSize)
    {
      if controlLatentFrames !in {1, 2, 3} || outputQueueSize <= 0 {
        return None;
      }
      var runtime := new Runtime(outputQueueSize);
      return Some(runtime);
    }

    method ClearOutputQueue()
      modifies this`queue
      ensures queue == []
    {
      while queue != [] {
        queue := queue[1..];
      }
    }

    /** Delete all cached versions but the twelve largest. */
    method EvictStale()
      modifies this`blocks
      ensures blocks == Evict(old(blocks))
    {
      var order := SortedElements(set v: int | v in blocks);
      var stale := if |order| > CACHED_BLOCKS then order[..|order| - CACHED_BLOCKS] else [];
      for i := 0 to |stale|
        invariant blocks == Without(old(blocks), stale[..i])
      {
        OneMoreDeleted(old(blocks), stale, i);
        blocks := map v | v in blocks && v != stale[i] :: blocks[v];
      }
      assert stale[..|stale|] == stale;
      OldestAreStale(old(blocks), order, |stale|);
    }

    /** `None` stands for the RuntimeError on an empty block. */
    method CacheBlockFrames(block: seq<Frame>) returns (ok: bool)
      modifies this`version, this`blocks
      ensures ok <==> block != []
      ensures View() == if ok then CacheBlock(old(View()), block) else old(View())
      ensures ok ==> version == old(version) + 1
      ensures ok && WindowCached(old(blocks), old(version)) ==>
                WindowCached(blocks, version) && version in blocks && blocks[version] == block
    {
      if block == [] {
        return false;
      }
      version := version + 1;
      blocks := blocks[version := block];
      EvictStale();
      if WindowCached(old(blocks), old(version)) {
        CachingKeepsWindow(old(View()), block);
      }
      return true;
    }

    /** The producer's lock section for a block of the current session. */
    method PublishBlock(of: nat, block: seq<Frame>, controls: set<Control>, revision: int)
      returns (payload: Option<Payload>, publish: bool)
      requires session == Some(of)
      modifies this`frames, this`chunkIndex, this`version, this`blocks
      ensures payload.Some? <==> block != []
      ensures payload.Some? ==>
                && View() == PublishOn(old(View()), block)
                && payload.value == PayloadFor(View(), of, block, controls, revision)
                && publish == !stopEvent
      ensures payload.Some? ==>
                && frames == old(frames) + block && chunkIndex == old(chunkIndex) + 1 && version == old(version) + 1
                && (WindowCached(old(blocks), old(version)) ==> version in blocks && blocks[version] == block)
                && payload.value.session == of && payload.value.chunk == chunkIndex && payload.value.version == version
                && payload.value.newFrames == |block| && payload.value.totalFrames == |frames|
                && payload.value.controls == controls && payload.value.revision == revision
      ensures payload.None? ==> View() == old(View()).(chunkIndex := old(chunkIndex) + 1) && !publish
    {
      frames := frames + block;
      chunkIndex := chunkIndex + 1;
      var ok := CacheBlockFrames(block);
      if !ok {
        return None, false;
      }
      payload := Some(Payload(of, chunkIndex, |block|, |frames|, controls, revision, version));
      publish := !stopEvent;
    }

    /** `applied` is false for a stale revision; `ok` is false without a session. */
    method SetControls(controls: set<Control>, revision: Option<int>) returns (ok: bool, applied: bool)
      modifies this`controls, this`revision
      ensures ok <==> session.Some?
      ensures applied <==> ok && !Stale(old(View()), revision)
      ensures View() == SetControlsOn(old(View()), controls, revision)
      ensures applied <==> session.Some? && (revision.None? || revision.value >= old(this.revision))
      ensures applied ==> this.controls == controls
      ensures applied ==> this.revision == if revision.None? then old(this.revision) + 1 else revision.value
      ensures !applied ==> this.controls == old(this.controls) && this.revision == old(this.revision)
    {
      if session.None? {
        return false, false;
      }
      if revision.Some? && revision.value < this.revision {
        return true, false;
      }
      this.controls := controls;
      this.revision := if revision.None? then this.revision + 1 else revision.value;
      return true, true;
    }

    /** One attempt to take the queue's head; `None` is the queue's Empty. */
    method TakeOutput() returns (payload: Option<Payload>)
      modifies this`queue
      ensures old(queue) == [] ==> payload.None? && queue == []
      ensures old(queue) != [] ==> payload == Some(old(queue)[0]) && queue == old(queue)[1..]
    {
      if queue == [] {
        return None;
      }
      payload := Some(queue[0]);
      queue := queue[1..];
    }

    /** One attempt to put a payload; `false` is the queue's Full. */
    method TryPut(payload: Payload) returns (ok: bool)
      modifies this`queue
      ensures ok <==> |old(queue)| < capacity
      ensures queue == if ok then old(queue) + [payload] else old(queue)
    {
      ok := |queue| < capacity;
      if ok {
        queue := queue + [payload];
      }
    }

    method SignalStop() returns (target: Option<nat>)
      modifies this`stopEvent
      ensures View() == SignalStopOn(old(View())) && stopEvent && target == worker
    {
      stopEvent := true;
      target := worker;
    }

    method Detach(target: Option<nat>)
      modifies this`worker
      ensures View() == DetachOn(old(View()), target)
      ensures worker == if old(worker) == target then None else old(worker)
    {
      if worker == target {
        worker := None;
      }
    }

    /** The reset under the lock that begins a session and launches its producer thread. */
    method StartSession(created: nat, controls: set<Control>, thread: nat)
      modifies this
      ensures View() == StartSessionOn(old(View()), created, controls, thread)
      ensures session == Some(created) && worker == Some(thread) && !stopEvent
      ensures this.controls == controls && revision == 0 && queue == []
      ensures frames == [] && chunkIndex == 0 && version == 0 && blocks == map[]
    {
      ClearOutputQueue();
      blocks, frames, chunkIndex, version := map[], [], 0, 0;
      revision := 0;
      this.controls := controls;
      session := Some(created);
      stopEvent := false;
      worker := Some(thread);
    }

    method EndSession()
      modifies this
      ensures View() == EndSessionOn(old(View()))
      ensures session == None && controls == {} && queue == []
      ensures frames == old(frames) && blocks == old(blocks) && version == old(version) && chunkIndex == old(chunkIndex)
      ensures revision == old(revision) && worker == old(worker) && stopEvent == old(stopEvent)
    {
      session := None;
      controls := {};
      ClearOutputQueue();
    }

    method BlockFrame(version: int, index: int) returns (frame: Option<Frame>)
      ensures frame.Some? <==> version in blocks && 0 <= index < |blocks[version]|
      ensures frame.Some? ==> frame.value == blocks[version][index]
      ensures frame == FrameAt(View(), version, index)
    {
      if version !in blocks || !(0 <= index < |blocks[version]|) {
        return None;
      }
      return Some(blocks[version][index]);
    }
  }

  lemma NewerCount(blocks: map<nat, seq<Frame>>, order: seq<int>, k: nat)
    requires Increasing(order) && k < |order|
    requires forall v :: v in order <==> v in blocks
    ensures order[k] in blocks && |Newer(blocks, order[k])| == |order| - 1 - k
  {
    assert order[k] in order;
    var later := order[k + 1..];
    DistinctSize(later);
    var newer: set<int> := Newer(blocks, order[k]);
    forall w ensures w in newer <==> w in Elements(later) {
      if w in newer {
        assert w in order;
        var j :| 0 <= j < |order| && order[j] == w;
        assert later[j - k - 1] == w;
      }
      if w in Elements(later) {
        var j :| 0 <= j < |later| && later[j] == w;
        assert order[j + k + 1] == w;
        assert w in order;
      }
    }
    assert newer == Elements(later);
  }

  function Without(blocks: map<nat, seq<Frame>>, gone: seq<int>): map<nat, seq<Frame>> {
    map v | v in blocks && v !in gone :: blocks[v]
  }

  lemma OneMoreDeleted(blocks: map<nat, seq<Frame>>, gone: seq<int>, i: nat)
    requires i < |gone|
    ensures
      var left := Without(blocks, gone[..i]);
      Without(blocks, gone[..i + 1]) == map v | v in left && v != gone[i] :: left[v]
  {
    assert gone[..i + 1] == gone[..i] + [gone[i]];
  }

  /** Of the sorted versions, all but the twelve largest are those with twelve or more newer ones. */
  lemma OldestAreStale(blocks: map<nat, seq<Frame>>, order: seq<int>, cut: nat)
    requires Increasing(order) && (forall v :: v in order <==> v in blocks)
    requires cut == if |order| > CACHED_BLOCKS then |order| - CACHED_BLOCKS else 0
    ensures Without(blocks, order[..cut]) == Evict(blocks)
  {
    forall v | v in blocks
      ensures v in order[..cut] <==> |Newer(blocks, v)| >= CACHED_BLOCKS
    {
      var k :| 0 <= k < |order| && order[k] == v;
      NewerCount(blocks, order, k);
      assert k < cut ==> order[..cut][k] == v;
    }
  }
}
