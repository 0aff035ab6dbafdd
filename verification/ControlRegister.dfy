/** Control updates that arrive out of order: what the register ends up holding. */
module ControlRegister {
  import opened Common
  import opened InteractiveRuntime

  datatype Update = Update(controls: set<Control>, revision: Option<int>)

  /** Apply the updates in arrival order. */
  function Fold(c: Core, updates: seq<Update>): Core {
    if updates == [] then c
    else
      var last := updates[|updates| - 1];
      SetControlsOn(Fold(c, updates[..|updates| - 1]), last.controls, last.revision)
  }

  predicate AllRevisioned(updates: seq<Update>) {
    forall i :: 0 <= i < |updates| ==> updates[i].revision.Some?
  }

  /** Position `k` holds the last update among those with the highest revision. */
  predicate LatestHighest(updates: seq<Update>, k: nat)
    requires AllRevisioned(updates)
  {
    && k < |updates|
    && (forall j :: 0 <= j < k ==> updates[j].revision.value <= updates[k].revision.value)
    && (forall j :: k < j < |updates| ==> updates[j].revision.value < updates[k].revision.value)
  }

  /** For any arrivals at all: the register holds the last of the highest revisions, or what it
      held before when even that one is stale. */
  lemma {:induction false} FoldIsLatestHighest(c: Core, updates: seq<Update>, k: nat)
    requires c.session.Some? && AllRevisioned(updates) && LatestHighest(updates, k)
    ensures Fold(c, updates) ==
            if updates[k].revision.value < c.revision then c
            else c.(controls := updates[k].controls, revision := updates[k].revision.value)
  {
    var n := |updates| - 1;
    var front := updates[..n];
    if n == 0 {
      assert Fold(c, front) == c;
    } else if k < n {
      FoldIsLatestHighest(c, front, k);
    } else {
      var j := FindLatestHighest(front);
      FoldIsLatestHighest(c, front, j);
    }
  }

  lemma FindLatestHighest(updates: seq<Update>) returns (k: nat)
    requires updates != [] && AllRevisioned(updates)
    ensures LatestHighest(updates, k)
  {
    k := 0;
    for i := 1 to |updates|
      invariant k < i
      invariant forall j :: 0 <= j < k ==> updates[j].revision.value <= updates[k].revision.value
      invariant forall j :: k < j < i ==> updates[j].revision.value < updates[k].revision.value
    {
      if updates[k].revision.value <= updates[i].revision.value {
        k := i;
      }
    }
  }

  predicate DistinctRevisions(updates: seq<Update>) {
    forall i, j :: 0 <= i < j < |updates| ==> updates[i].revision != updates[j].revision
  }

  /** Convergence: with distinct client revisions the order of arrival does not matter. */
  lemma OrderOfArrivalIrrelevant(c: Core, sent: seq<Update>, arrived: seq<Update>)
    requires c.session.Some? && AllRevisioned(sent) && DistinctRevisions(sent)
    requires multiset(sent) == multiset(arrived)
    ensures Fold(c, sent) == Fold(c, arrived)
  {
    if sent == [] {
      assert |arrived| == |multiset(arrived)| == 0;
    } else {
      assert |arrived| == |multiset(arrived)| == |sent|;
      forall i | 0 <= i < |arrived| ensures arrived[i] in sent {
        assert arrived[i] in multiset(arrived);
      }
      forall i | 0 <= i < |sent| ensures sent[i] in arrived {
        assert sent[i] in multiset(sent);
      }
      var k := FindLatestHighest(sent);
      var m := FindLatestHighest(arrived);
      SameHighest(sent, k, arrived, m);
      FoldIsLatestHighest(c, sent, k);
      FoldIsLatestHighest(c, arrived, m);
    }
  }

  lemma SameHighest(sent: seq<Update>, k: nat, arrived: seq<Update>, m: nat)
    requires AllRevisioned(sent) && DistinctRevisions(sent) && AllRevisioned(arrived)
    requires LatestHighest(sent, k) && LatestHighest(arrived, m)
    requires forall i :: 0 <= i < |arrived| ==> arrived[i] in sent
    requires forall i :: 0 <= i < |sent| ==> sent[i] in arrived
    ensures sent[k] == arrived[m]
  {
    var i :| 0 <= i < |sent| && sent[i] == arrived[m];
    var j :| 0 <= j < |arrived| && arrived[j] == sent[k];
    assert sent[i].revision.value <= sent[k].revision.value;
    assert arrived[j].revision.value <= arrived[m].revision.value;
  }

  /** Two updates commute exactly when they do not compete: their revisions differ, they say the
      same, or both are stale. */
  lemma PairCommutes(c: Core, a: Update, b: Update)
    requires c.session.Some? && a.revision.Some? && b.revision.Some?
    ensures Fold(c, [a, b]) == Fold(c, [b, a]) <==>
            a.revision != b.revision || a.controls == b.controls || a.revision.value < c.revision
  {
    FoldPair(c, a, b);
    FoldPair(c, b, a);
  }

  lemma FoldPair(c: Core, a: Update, b: Update)
    ensures Fold(c, [a, b]) == SetControlsOn(SetControlsOn(c, a.controls, a.revision), b.controls, b.revision)
  {
    assert [a, b][..1] == [a];
    assert [a][..0] == [];
    assert Fold(c, [a]) == SetControlsOn(Fold(c, []), a.controls, a.revision);
  }

  // ----- any mix of updates with and without a revision

  /** The number of updates without a revision. */
  function Unrevisioned(updates: seq<Update>): nat {
    if updates == [] then 0
    else
      Unrevisioned(updates[..|updates| - 1]) + if updates[|updates| - 1].revision.None? then 1 else 0
  }

  /** Where a client's revision has got to, one step for each later update without a revision. */
  function Height(updates: seq<Update>, j: nat): int
    requires j < |updates| && updates[j].revision.Some?
  {
    updates[j].revision.value + Unrevisioned(updates[j + 1..])
  }

  /** No revision, nor the register's first one, has got beyond `h`. */
  ghost predicate NoneAbove(c: Core, updates: seq<Update>, h: int) {
    && c.revision + Unrevisioned(updates) <= h
    && forall j :: 0 <= j < |updates| && updates[j].revision.Some? ==> Height(updates, j) <= h
  }

  /** One of them has got to `h`. */
  ghost predicate OneAt(c: Core, updates: seq<Update>, h: int) {
    || c.revision + Unrevisioned(updates) == h
    || exists j :: 0 <= j < |updates| && updates[j].revision.Some? && Height(updates, j) == h
  }

  /** Update `k` takes effect: it has no revision, or nothing before has got beyond its own. */
  ghost predicate TakesEffect(c: Core, updates: seq<Update>, k: nat) {
    k < |updates| && (updates[k].revision.None? || NoneAbove(c, updates[..k], updates[k].revision.value))
  }

  lemma HeightGrows(updates: seq<Update>, u: Update, j: nat)
    requires j < |updates| && updates[j].revision.Some?
    ensures Height(updates + [u], j) == Height(updates, j) + if u.revision.None? then 1 else 0
  {
    assert (updates + [u])[j + 1..] == updates[j + 1..] + [u];
    UnrevisionedGrows(updates[j + 1..], u);
  }

  lemma UnrevisionedGrows(updates: seq<Update>, u: Update)
    ensures Unrevisioned(updates + [u]) == Unrevisioned(updates) + if u.revision.None? then 1 else 0
  {
    assert (updates + [u])[..|updates|] == updates;
  }

  /** The register's revision after any mix is the highest that any revision, its own first one
      included, has got to; nothing but controls and revision changes. */
  lemma {:induction false} MixedRevision(c: Core, updates: seq<Update>)
    requires c.session.Some?
    ensures NoneAbove(c, updates, Fold(c, updates).revision) && OneAt(c, updates, Fold(c, updates).revision)
    ensures Fold(c, updates) == c.(controls := Fold(c, updates).controls, revision := Fold(c, updates).revision)
  {
    if updates != [] {
      var front, u := updates[..|updates| - 1], updates[|updates| - 1];
      MixedRevision(c, front);
      UpdateEffect(Fold(c, front), u.controls, u.revision);
      OneMoreHeight(c, front, u, Fold(c, front).revision, Fold(c, updates).revision);
      assert front + [u] == updates;
    }
  }

  lemma OneMoreHeight(c: Core, front: seq<Update>, u: Update, before: int, after: int)
    requires NoneAbove(c, front, before) && OneAt(c, front, before)
    requires u.revision.None? ==> after == before + 1
    requires u.revision.Some? ==> after == if u.revision.value < before then before else u.revision.value
    ensures NoneAbove(c, front + [u], after) && OneAt(c, front + [u], after)
  {
    var all, n := front + [u], |front|;
    UnrevisionedGrows(front, u);
    assert all[n + 1..] == [];
    forall j | 0 <= j < |all| && all[j].revision.Some?
      ensures Height(all, j) <= after
    {
      if j < n {
        HeightGrows(front, u, j);
      }
    }
    if j :| 0 <= j < n && front[j].revision.Some? && Height(front, j) == before {
      HeightGrows(front, u, j);
      assert all[j] == front[j];
    }
    if u.revision.Some? {
      assert Height(all, n) == u.revision.value;
    }
  }

  /** The register's controls after any mix are those of the last update that takes effect, and the
      first ones if none does. */
  lemma {:induction false} MixedControls(c: Core, updates: seq<Update>, k: nat)
    requires c.session.Some?
    requires forall j :: k < j < |updates| ==> !TakesEffect(c, updates, j)
    ensures TakesEffect(c, updates, k) ==> Fold(c, updates).controls == updates[k].controls
    ensures !TakesEffect(c, updates, k) && k == 0 ==> Fold(c, updates).controls == c.controls
  {
    if updates != [] {
      var n := |updates| - 1;
      var front, u := updates[..n], updates[n];
      MixedRevision(c, front);
      UpdateEffect(Fold(c, front), u.controls, u.revision);
      LastTakesEffect(c, front, u, Fold(c, front).revision);
      assert front + [u] == updates;
      if k < n {
        forall j | 0 <= j < n ensures TakesEffect(c, front, j) <==> TakesEffect(c, updates, j) {
          assert front[..j] == updates[..j];
        }
        MixedControls(c, front, k);
      } else if k == n && k == 0 {
        assert Fold(c, front) == c;
      }
    }
  }

  /** An update without a revision takes effect; one with a revision does unless it is below the
      highest revision so far. */
  lemma LastTakesEffect(c: Core, front: seq<Update>, u: Update, highest: int)
    requires NoneAbove(c, front, highest) && OneAt(c, front, highest)
    ensures TakesEffect(c, front + [u], |front|) <==> u.revision.None? || u.revision.value >= highest
  {
    assert (front + [u])[..|front|] == front;
  }

  /** Any mix of revisioned and unrevisioned updates moves the revision forward only. */
  lemma {:induction false} FoldNeverDecreases(c: Core, updates: seq<Update>)
    ensures Fold(c, updates).revision >= c.revision
  {
    if updates != [] {
      FoldNeverDecreases(c, updates[..|updates| - 1]);
    }
  }
}
