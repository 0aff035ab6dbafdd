/** The GPU allocator of the example runner. */
module GpuPool {
  import opened Common

  datatype Pool = Pool(available: seq<int>, total: nat, leases: map<nat, seq<int>>, nextJobId: nat)

  datatype Allocation = Allocation(jobId: nat, gpus: seq<int>)

  function Insert(x: int, s: seq<int>): seq<int> {
    if s == [] || x <= s[0] then [x] + s else [s[0]] + Insert(x, s[1..])
  }

  function Sort(s: seq<int>): seq<int> {
    if s == [] then [] else Insert(s[0], Sort(s[1..]))
  }

  function NewPool(ids: seq<int>): Pool {
    Pool(Sort(ids), |ids|, map[], 0)
  }

  function AllocateFrom(p: Pool, count: nat): (Pool, Option<Allocation>) {
    if |p.available| < count then (p, None)
    else
      var taken := p.available[..count];
      (p.(available := p.available[count..], nextJobId := p.nextJobId + 1, leases := p.leases[p.nextJobId := taken]),
       Some(Allocation(p.nextJobId, taken)))
  }

  function ReleaseTo(p: Pool, jobId: nat): (Pool, seq<int>) {
    if jobId !in p.leases then (p, [])
    else
      (p.(available := Sort(p.available + p.leases[jobId]), leases := p.leases - {jobId}),
       p.leases[jobId])
  }

  class GPUPool {
    var available: seq<int>
    const total: nat
    var leases: map<nat, seq<int>>
    var nextJobId: nat

    ghost function View(): Pool
      reads this
    {
      Pool(available, total, leases, nextJobId)
    }

    constructor (ids: seq<int>)
      ensures View() == NewPool(ids)
    {
      available := Sort(ids);
      total := |ids|;
      leases := map[];
      nextJobId := 0;
    }

    method Allocate(count: nat) returns (r: Option<Allocation>)
      modifies this
      ensures (View(), r) == AllocateFrom(old(View()), count)
    {
      if |available| < count {
        return None;
      }
      var taken := available[..count];
      available := available[count..];
      var jobId := nextJobId;
      nextJobId := nextJobId + 1;
      leases := leases[jobId := taken];
      return Some(Allocation(jobId, taken));
    }

    method Release(jobId: nat) returns (gpus: seq<int>)
      modifies this
      ensures (View(), gpus) == ReleaseTo(old(View()), jobId)
    {
      if jobId !in leases {
        return [];
      }
      gpus := leases[jobId];
      leases := leases - {jobId};
      available := Sort(available + gpus);
    }
  }

  // ----- sorting

  lemma {:induction false} InsertAdds(x: int, s: seq<int>)
    ensures multiset(Insert(x, s)) == multiset(s) + multiset{x}
  {
    if s != [] && x > s[0] {
      InsertAdds(x, s[1..]);
      assert s == [s[0]] + s[1..];
    }
  }

  lemma InFront(x: int, s: seq<int>, t: seq<int>)
    requires Ascending(t) && multiset(t) == multiset(s)
    requires forall y :: y in s ==> x <= y
    ensures Ascending([x] + t)
  {
    forall k | 0 <= k < |t| ensures x <= t[k] {
      assert t[k] in multiset(t) && t[k] in s;
    }
  }

  lemma {:induction false} InsertSorts(x: int, s: seq<int>)
    requires Ascending(s)
    ensures Ascending(Insert(x, s))
  {
    if s != [] && x > s[0] {
      InsertSorts(x, s[1..]);
      InsertAdds(x, s[1..]);
      InFront(s[0], s[1..] + [x], Insert(x, s[1..]));
    }
  }

  lemma {:induction false} SortSorts(s: seq<int>)
    ensures Ascending(Sort(s)) && multiset(Sort(s)) == multiset(s)
  {
    if s != [] {
      SortSorts(s[1..]);
      InsertSorts(s[0], Sort(s[1..]));
      InsertAdds(s[0], Sort(s[1..]));
      assert s == [s[0]] + s[1..];
    }
  }

  lemma LeastFirst(a: seq<int>, x: int)
    requires Ascending(a) && x in multiset(a)
    ensures a != [] && a[0] <= x
  {
    assert x in a;
  }

  lemma HeadsAgree(a: seq<int>, b: seq<int>)
    requires Ascending(a) && Ascending(b) && multiset(a) == multiset(b) && a != []
    ensures b != [] && a[0] == b[0]
  {
    assert a[0] in multiset(a);
    LeastFirst(b, a[0]);
    assert b[0] in multiset(b);
    LeastFirst(a, b[0]);
  }

  lemma {:induction false} SortedUnique(a: seq<int>, b: seq<int>)
    requires Ascending(a) && Ascending(b) && multiset(a) == multiset(b)
    ensures a == b
  {
    if a == [] {
      EmptyBag(b);
    } else {
      HeadsAgree(a, b);
      TailBag(a);
      TailBag(b);
      SortedUnique(a[1..], b[1..]);
      assert a == [a[0]] + a[1..] && b == [b[0]] + b[1..];
    }
  }

  lemma EmptyBag(b: seq<int>)
    requires multiset(b) == multiset{}
    ensures b == []
  {
    assert |multiset(b)| == |b|;
  }

  lemma TailBag(a: seq<int>)
    requires a != []
    ensures multiset(a[1..]) == multiset(a) - multiset{a[0]}
    ensures Ascending(a) ==> Ascending(a[1..])
  {
    assert a == [a[0]] + a[1..];
  }

  // ----- conservation

  /** All ids held by jobs numbered below `n`, with multiplicity. */
  ghost function HeldIds(leases: map<nat, seq<int>>, n: nat): multiset<int> {
    if n == 0 then multiset{}
    else HeldIds(leases, n - 1) + if n - 1 in leases then multiset(leases[n - 1]) else multiset{}
  }

  ghost predicate PoolInv(ids: seq<int>, p: Pool) {
    && multiset(p.available) + HeldIds(p.leases, p.nextJobId) == multiset(ids)
    && Ascending(p.available)
    && (forall j :: j in p.leases ==> j < p.nextJobId)
    && p.total == |ids|
  }

  lemma {:induction false} HeldSame(a: map<nat, seq<int>>, b: map<nat, seq<int>>, n: nat)
    requires forall j :: 0 <= j < n ==> (j in a <==> j in b) && (j in a ==> a[j] == b[j])
    ensures HeldIds(a, n) == HeldIds(b, n)
  {
    if n > 0 {
      HeldSame(a, b, n - 1);
    }
  }

  lemma {:induction false} HeldRemove(leases: map<nat, seq<int>>, n: nat, j: nat)
    requires j < n && j in leases
    ensures HeldIds(leases, n) == HeldIds(leases - {j}, n) + multiset(leases[j])
  {
    if j == n - 1 {
      HeldSame(leases, leases - {j}, n - 1);
    } else {
      HeldRemove(leases, n - 1, j);
    }
  }

  lemma NewPoolOk(ids: seq<int>)
    ensures PoolInv(ids, NewPool(ids))
  {
    SortSorts(ids);
  }

  lemma AllocateConserves(ids: seq<int>, p: Pool, count: nat)
    requires PoolInv(ids, p)
    ensures PoolInv(ids, AllocateFrom(p, count).0)
    ensures AllocateFrom(p, count).1.Some? <==> count <= |p.available|
    ensures AllocateFrom(p, count).1.Some? ==>
              var a := AllocateFrom(p, count).1.value;
              && |a.gpus| == count && a.jobId !in p.leases && Ascending(a.gpus)
              && AllocateFrom(p, count).0.leases == p.leases[a.jobId := a.gpus]
              && (forall g, h :: g in a.gpus && h in AllocateFrom(p, count).0.available ==> g <= h)
  {
    if count <= |p.available| {
      var q := AllocateFrom(p, count).0;
      HandsOutSmallest(p.available, count);
      HeldSame(p.leases, q.leases, p.nextJobId);
    }
  }

  lemma HandsOutSmallest(s: seq<int>, count: nat)
    requires Ascending(s) && count <= |s|
    ensures Ascending(s[..count]) && Ascending(s[count..]) && multiset(s) == multiset(s[..count]) + multiset(s[count..])
    ensures forall g, h :: g in s[..count] && h in s[count..] ==> g <= h
  {
    assert s == s[..count] + s[count..];
  }

  lemma ReleaseConserves(ids: seq<int>, p: Pool, jobId: nat)
    requires PoolInv(ids, p)
    ensures PoolInv(ids, ReleaseTo(p, jobId).0)
    ensures jobId in p.leases ==>
              && ReleaseTo(p, jobId).1 == p.leases[jobId]
              && multiset(ReleaseTo(p, jobId).0.available) == multiset(p.available) + multiset(p.leases[jobId])
    ensures ReleaseTo(p, jobId).0.leases == p.leases - {jobId}
  {
    if jobId in p.leases {
      SortSorts(p.available + p.leases[jobId]);
      HeldRemove(p.leases, p.nextJobId, jobId);
    }
  }

  /** Releasing undoes allocating: the same GPUs are free in the same order, only the id is spent. */
  lemma ReleaseUndoesAllocate(ids: seq<int>, p: Pool, count: nat)
    requires PoolInv(ids, p) && count <= |p.available|
    ensures
      var (q, a) := AllocateFrom(p, count);
      a.Some? && ReleaseTo(q, a.value.jobId) == (p.(nextJobId := p.nextJobId + 1), a.value.gpus)
  {
    var (q, a) := AllocateFrom(p, count);
    SortBack(p.available, count);
    assert (p.leases[p.nextJobId := a.value.gpus]) - {p.nextJobId} == p.leases;
  }

  lemma SortBack(s: seq<int>, cut: nat)
    requires Ascending(s) && cut <= |s|
    ensures Sort(s[cut..] + s[..cut]) == s
  {
    SortSorts(s[cut..] + s[..cut]);
    assert s == s[..cut] + s[cut..];
    SortedUnique(Sort(s[cut..] + s[..cut]), s);
  }

  // ----- every history of requests

  datatype Request = Ask(count: nat) | Give(jobId: nat)

  function Serve(p: Pool, r: Request): Pool {
    match r
    case Ask(count) => AllocateFrom(p, count).0
    case Give(jobId) => ReleaseTo(p, jobId).0
  }

  function ServeAll(p: Pool, requests: seq<Request>): Pool {
    if requests == [] then p
    else Serve(ServeAll(p, requests[..|requests| - 1]), requests[|requests| - 1])
  }

  /** Whatever is asked and given back, in any order: no GPU is lost, duplicated or shared, the
      free list stays sorted, and job ids are never reused. */
  lemma {:induction false} PoolConservation(ids: seq<int>, requests: seq<Request>)
    ensures PoolInv(ids, ServeAll(NewPool(ids), requests))
    ensures requests != [] ==>
              var before := ServeAll(NewPool(ids), requests[..|requests| - 1]);
              var after := ServeAll(NewPool(ids), requests);
              && before.nextJobId <= after.nextJobId
              && (forall j :: j in after.leases && j !in before.leases ==> j == before.nextJobId)
  {
    if requests == [] {
      NewPoolOk(ids);
    } else {
      var before := ServeAll(NewPool(ids), requests[..|requests| - 1]);
      PoolConservation(ids, requests[..|requests| - 1]);
      match requests[|requests| - 1]
      case Ask(count) => AllocateConserves(ids, before, count);
      case Give(jobId) => ReleaseConserves(ids, before, jobId);
    }
  }

  lemma {:induction false} HeldContains(leases: map<nat, seq<int>>, n: nat, j: nat, g: int)
    requires j < n && j in leases && g in leases[j]
    ensures HeldIds(leases, n)[g] >= multiset(leases[j])[g] >= 1
  {
    if j < n - 1 {
      HeldContains(leases, n - 1, j, g);
    }
  }

  lemma {:induction false} HeldContainsTwo(leases: map<nat, seq<int>>, n: nat, i: nat, j: nat, g: int)
    requires i < j < n && i in leases && j in leases && g in leases[i] && g in leases[j]
    ensures HeldIds(leases, n)[g] >= 2
  {
    if j == n - 1 {
      HeldContains(leases, n - 1, i, g);
    } else {
      HeldContainsTwo(leases, n - 1, i, j, g);
    }
  }

  lemma {:induction false} DistinctCounts(ids: seq<int>, g: int)
    requires NoDuplicates(ids)
    ensures multiset(ids)[g] <= 1
  {
    if ids != [] {
      assert ids == [ids[0]] + ids[1..];
      DistinctCounts(ids[1..], g);
      if g == ids[0] {
        assert g !in ids[1..];
      }
    }
  }

  /** With distinct ids no GPU serves two jobs, or a job and the free list. */
  lemma NoSharing(ids: seq<int>, p: Pool, i: nat, j: nat, g: int)
    requires NoDuplicates(ids) && PoolInv(ids, p)
    requires i in p.leases && g in p.leases[i]
    ensures g !in p.available && g in ids
    ensures j in p.leases && j != i ==> g !in p.leases[j]
  {
    DistinctCounts(ids, g);
    HeldContains(p.leases, p.nextJobId, i, g);
    assert multiset(ids)[g] == multiset(p.available)[g] + HeldIds(p.leases, p.nextJobId)[g];
    if j in p.leases && j != i && g in p.leases[j] {
      HeldContainsTwo(p.leases, p.nextJobId, if i < j then i else j, if i < j then j else i, g);
    }
    assert g in multiset(ids);
  }
}
