/**
 * The particle store: the main particle vector p, the trial vector, and the
 * list of enrolled groups.  Inserting or erasing a particle edits both vectors
 * in place and shifts the bounds of every enrolled group so that each group
 * keeps covering the same particles.
 */
module Spaces {
  import opened Outcomes
  import opened Particles
  import opened Ranges

  /** No group is enrolled twice (enroll refuses a group already listed). */
  ghost predicate Distinct(gs: seq<ContinuousRange>)
  {
    forall j, k :: 0 <= j < k < |gs| ==> gs[j] != gs[k]
  }

  // ---------------------------------------------------------------------
  // Specification of the vector edits and of the bound shifts

  /** Where insert(a, i) puts a: at the end for i == -1 or i past the end, otherwise at i. */
  function InsertPosition(i: int, n: nat): (at: int)
    requires i >= -1
    ensures 0 <= at <= n
    ensures at == n <==> (i == -1 || i >= n)
  {
    if i == -1 || i > n then n else i
  }

  function Inserted<T>(s: seq<T>, at: int, a: T): (r: seq<T>)
    requires 0 <= at <= |s|
    ensures |r| == |s| + 1 && r[at] == a
    ensures forall k :: 0 <= k < at ==> r[k] == s[k]
    ensures forall k :: at < k < |r| ==> r[k] == s[k - 1]
  {
    s[..at] + [a] + s[at..]
  }

  function Removed<T>(s: seq<T>, at: int): (r: seq<T>)
    requires 0 <= at < |s|
    ensures |r| == |s| - 1
    ensures forall k :: 0 <= k < at ==> r[k] == s[k]
    ensures forall k :: at <= k < |r| ==> r[k] == s[k + 1]
  {
    s[..at] + s[at + 1..]
  }

  /** The new front and back of a group [f, b] after a particle is inserted at position at. */
  function FrontAfterInsert(f: int, at: int): int { if f > at then f + 1 else f }
  function BackAfterInsert(b: int, at: int): int { if b >= at then b + 1 else b }

  /** The new front and back of a group [f, b] after the particle at position at is erased. */
  function FrontAfterErase(f: int, at: int): int { if at < f then f - 1 else f }
  function BackAfterErase(b: int, at: int): int { if at <= b then b - 1 else b }

  /**
   * After an insertion a group covers the particles it covered before, and
   * also the new particle when it landed between its front and its back
   * (front included).
   */
  lemma {:induction false} InsertKeepsMembers<T>(s: seq<T>, at: int, a: T, f: int, b: int)
    requires 0 <= at <= |s| && 0 <= f <= b + 1 <= |s|
    ensures 0 <= FrontAfterInsert(f, at) <= BackAfterInsert(b, at) + 1 <= |s| + 1
    ensures Inserted(s, at, a)[FrontAfterInsert(f, at)..BackAfterInsert(b, at) + 1]
            == if f <= at <= b then s[f..at] + [a] + s[at..b + 1] else s[f..b + 1]
  {
    var r := Inserted(s, at, a);
    var f', b' := FrontAfterInsert(f, at), BackAfterInsert(b, at);
    if f <= at <= b {
      assert r[f'..b' + 1] == s[f..at] + [a] + s[at..b + 1];
    } else if at < f {
      assert r[f'..b' + 1] == s[f..b + 1];
    } else {
      assert r[f'..b' + 1] == s[f..b + 1];
    }
  }

  /** After an erasure a group covers the particles it covered before, less the erased one. */
  lemma {:induction false} EraseKeepsMembers<T>(s: seq<T>, at: int, f: int, b: int)
    requires 0 <= at < |s| && 0 <= f <= b + 1 <= |s|
    ensures 0 <= FrontAfterErase(f, at) <= BackAfterErase(b, at) + 1 <= |s| - 1
    ensures Removed(s, at)[FrontAfterErase(f, at)..BackAfterErase(b, at) + 1]
            == if f <= at <= b then s[f..at] + s[at + 1..b + 1] else s[f..b + 1]
  {
    var r := Removed(s, at);
    var f', b' := FrontAfterErase(f, at), BackAfterErase(b, at);
    if f <= at <= b {
      assert r[f'..b' + 1] == s[f..at] + s[at + 1..b + 1];
    } else if at < f {
      assert r[f'..b' + 1] == s[f..b + 1];
    } else {
      assert r[f'..b' + 1] == s[f..b + 1];
    }
  }

  /** Erasing the particle just inserted gives back the vector, and undoes every group shift. */
  lemma {:induction false} EraseUndoesInsert<T>(s: seq<T>, at: int, a: T, f: int, b: int)
    requires 0 <= at <= |s| && f <= b + 1
    ensures Removed(Inserted(s, at, a), at) == s
    ensures FrontAfterErase(FrontAfterInsert(f, at), at) == f
    ensures BackAfterErase(BackAfterInsert(b, at), at) == b
  {
    var r := Removed(Inserted(s, at, a), at);
    assert forall k :: 0 <= k < |s| ==> r[k] == s[k];
  }

  class Space {
    var p: seq<Particle>
    var trial: seq<Particle>
    var g: seq<ContinuousRange>

    constructor ()
      ensures p == [] && trial == [] && g == []
    {
      p, trial, g := [], [], [];
    }

    /** charge(): the net charge of p. */
    method Charge() returns (z: real)
      ensures z == ChargeSum(p)
    {
      z := 0.0;
      var k := 0;
      while k < |p|
        invariant 0 <= k <= |p|
        invariant z == ChargeSum(p[..k])
      {
        ChargeSumSnoc(p[..k], p[k]);
        assert p[..k + 1] == p[..k] + [p[k]];
        z := z + p[k].charge;
        k := k + 1;
      }
      assert p[..k] == p;
    }

    /** findGroup(i): the first enrolled group whose range holds i, or null. */
    method FindGroup(i: int) returns (r: ContinuousRange?, ghost at: int)
      ensures r == null ==> forall k :: 0 <= k < |g| ==> !g[k].Find(i)
      ensures r != null ==> 0 <= at < |g| && g[at] == r && r.Front() <= i <= r.Back()
      ensures r != null ==> forall k :: 0 <= k < at ==> !g[k].Find(i)
    {
      var k := 0;
      while k < |g|
        invariant 0 <= k <= |g|
        invariant forall m :: 0 <= m < k ==> !g[m].Find(i)
      {
        if g[k].Find(i) {
          return g[k], k;
        }
        k := k + 1;
      }
      return null, -1;
    }

    /**
     * insert(a, i): a goes into p and trial at InsertPosition(i), and every
     * enrolled group whose front lies after that position, or whose back lies
     * at or after it, moves up by one.
     */
    method Insert(a: Particle, i: int) returns (ok: bool)
      requires i >= -1
      requires i == -1 || i > |p| || i <= |trial|
      requires Distinct(g)
      modifies this, g
      ensures ok && g == old(g) && Distinct(g)
      ensures var at := InsertPosition(i, old(|p|));
        && p == Inserted(old(p), at, a)
        && trial == (if i == -1 || i > old(|p|) then old(trial) + [a] else Inserted(old(trial), i, a))
        && forall k :: 0 <= k < |g| ==>
             g[k].Front() == FrontAfterInsert(old(g[k].Front()), at)
             && g[k].Back() == BackAfterInsert(old(g[k].Back()), at)
    {
      var at := i;
      if i == -1 || i > |p| {
        at := |p|;
        p := p + [a];
        trial := trial + [a];
        assert p == Inserted(old(p), at, a);
      } else {
        p := p[..at] + [a] + p[at..];
        trial := trial[..at] + [a] + trial[at..];
      }
      var k := 0;
      while k < |g|
        invariant 0 <= k <= |g| && g == old(g)
        invariant p == Inserted(old(p), at, a)
        invariant trial == (if i == -1 || i > old(|p|) then old(trial) + [a] else Inserted(old(trial), i, a))
        invariant forall m :: 0 <= m < k ==>
          g[m].Front() == FrontAfterInsert(old(g[m].Front()), at)
          && g[m].Back() == BackAfterInsert(old(g[m].Back()), at)
        invariant forall m :: k <= m < |g| ==> g[m].begin == old(g[m].begin) && g[m].end == old(g[m].end)
      {
        var gj := g[k];
        if gj.Front() > at {
          gj.SetFront(gj.Front() + 1);
        }
        if gj.Back() >= at {
          gj.SetBack(gj.Back() + 1);
        }
        k := k + 1;
      }
      ok := true;
    }

    /**
     * erase(i): false with nothing changed when i is past the end; otherwise
     * position i leaves p and trial, and the bounds of every enrolled group
     * after it move down by one.
     */
    method Erase(i: int) returns (ok: bool)
      requires i >= 0
      requires i < |p| ==> i < |trial|
      requires Distinct(g)
      modifies this, g
      ensures g == old(g) && Distinct(g)
      ensures ok <==> i < old(|p|)
      ensures !ok ==> (p == old(p) && trial == old(trial)
        && forall k :: 0 <= k < |g| ==> g[k].begin == old(g[k].begin) && g[k].end == old(g[k].end))
      ensures ok ==> (p == Removed(old(p), i) && trial == Removed(old(trial), i)
        && forall k :: 0 <= k < |g| ==>
             g[k].Front() == FrontAfterErase(old(g[k].Front()), i)
             && g[k].Back() == BackAfterErase(old(g[k].Back()), i))
    {
      if i >= |p| {
        return false;
      }
      p := p[..i] + p[i + 1..];
      trial := trial[..i] + trial[i + 1..];
      var k := 0;
      while k < |g|
        invariant 0 <= k <= |g| && g == old(g)
        invariant p == Removed(old(p), i) && trial == Removed(old(trial), i)
        invariant forall m :: 0 <= m < k ==>
          g[m].Front() == FrontAfterErase(old(g[m].Front()), i)
          && g[m].Back() == BackAfterErase(old(g[m].Back()), i)
        invariant forall m :: k <= m < |g| ==> g[m].begin == old(g[m].begin) && g[m].end == old(g[m].end)
      {
        var gj := g[k];
        if i < gj.Front() {
          gj.SetFront(gj.Front() - 1);
        }
        if i <= gj.Back() {
          gj.SetBack(gj.Back() - 1);
        }
        k := k + 1;
      }
      ok := true;
    }

    /**
     * insert(pin, -1): appends pin to p (not to trial) and returns a new group
     * covering the appended particles; an empty pin gives the default empty
     * group and changes nothing.
     */
    method InsertVector(pin: seq<Particle>, i: int) returns (rg: ContinuousRange)
      requires i == -1
      modifies this
      ensures fresh(rg) && trial == old(trial) && g == old(g)
      ensures pin == [] ==> p == old(p) && rg.Front() == 0 && rg.Size() == 0
      ensures pin != [] ==> p == old(p) + pin && rg.Front() == old(|p|) && rg.Back() == old(|p|) + |pin| - 1
    {
      rg := new ContinuousRange(0, 0);
      if pin != [] {
        rg.SetRange(|p|, -1);
        p := p + pin;
        rg.Resize(|pin|);
      }
    }

    /**
     * enroll(ng): the position of ng in the group list; a group not yet listed
     * is appended first and trial is synchronised with p.
     */
    method Enroll(ng: ContinuousRange) returns (r: int)
      requires Distinct(g)
      modifies this
      ensures Distinct(g) && p == old(p)
      ensures 0 <= r < |g| && g[r] == ng
      ensures ng in old(g) ==> g == old(g) && trial == old(trial)
      ensures ng !in old(g) ==> g == old(g) + [ng] && trial == p
    {
      var k := 0;
      while k < |g|
        invariant 0 <= k <= |g|
        invariant forall m :: 0 <= m < k ==> g[m] != ng
      {
        if g[k] == ng {
          return k;
        }
        k := k + 1;
      }
      g := g + [ng];
      trial := p;
      r := |g| - 1;
    }
  }
}
