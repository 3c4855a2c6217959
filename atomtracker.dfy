/**
 * AtomTracker: for each atom type, the list of positions in the particle
 * vector where particles of that type sit.  Inserting or erasing through the
 * tracker edits the Space and renumbers every tracked position past the edit.
 *
 * The lists live in a map ordered by atom type (a C++ std::map), so erase
 * searches them in ascending type order.
 */
module AtomTracking {
  import opened Outcomes
  import opened Particles
  import opened Ranges
  import opened Spaces

  // ---------------------------------------------------------------------
  // Specification of the list edits

  /** Every tracked position at or past index moves up by one. */
  function ShiftUp(s: seq<int>, index: int): (r: seq<int>)
    ensures |r| == |s|
    ensures forall k :: 0 <= k < |s| ==> r[k] == if s[k] >= index then s[k] + 1 else s[k]
  {
    seq(|s|, k requires 0 <= k < |s| => if s[k] >= index then s[k] + 1 else s[k])
  }

  /** Every tracked position past index moves down by one. */
  function ShiftDown(s: seq<int>, index: int): (r: seq<int>)
    ensures |r| == |s|
    ensures forall k :: 0 <= k < |s| ==> r[k] == if s[k] > index then s[k] - 1 else s[k]
  {
    seq(|s|, k requires 0 <= k < |s| => if s[k] > index then s[k] - 1 else s[k])
  }

  function ShiftUpAll(lists: map<int, seq<int>>, index: int): (r: map<int, seq<int>>)
    ensures r.Keys == lists.Keys
    ensures forall id :: id in r ==> r[id] == ShiftUp(lists[id], index)
  {
    map id | id in lists :: ShiftUp(lists[id], index)
  }

  function ShiftDownAll(lists: map<int, seq<int>>, index: int): (r: map<int, seq<int>>)
    ensures r.Keys == lists.Keys
    ensures forall id :: id in r ==> r[id] == ShiftDown(lists[id], index)
  {
    map id | id in lists :: ShiftDown(lists[id], index)
  }

  /** The position of the first occurrence of x (std::find). */
  function IndexOf(s: seq<int>, x: int): (j: nat)
    requires x in s
    ensures j < |s| && s[j] == x && x !in s[..j]
  {
    if s[0] == x then 0 else 1 + IndexOf(s[1..], x)
  }

  lemma {:induction false} IndexOfFirst(s: seq<int>, x: int, j: nat)
    requires j < |s| && s[j] == x && x !in s[..j]
    ensures IndexOf(s, x) == j
  {
    var i := IndexOf(s, x);
    assert forall m :: 0 <= m < i ==> s[..i][m] == s[m];
    assert forall m :: 0 <= m < j ==> s[..j][m] == s[m];
  }

  /**
   * What insert(a, index) leaves in the lists: every list shifted up, then
   * index appended to the list of a's type (created empty when missing).
   */
  function AfterInsert(lists: map<int, seq<int>>, index: int, id: int): map<int, seq<int>>
  {
    var shifted := ShiftUpAll(lists, index);
    shifted[id := (if id in shifted then shifted[id] else []) + [index]]
  }

  /** The atom types whose list holds index. */
  ghost function Holders(lists: map<int, seq<int>>, index: int): set<int>
  {
    set id | id in lists && index in lists[id]
  }

  lemma {:induction false} HasMember(s: set<int>)
    requires s != {}
    ensures exists x :: x in s
  {
    if forall x :: x !in s {
      assert false;
    }
  }

  ghost function SetMin(s: set<int>): (m: int)
    requires s != {}
    ensures m in s && forall k :: k in s ==> m <= k
  {
    HasMember(s);
    var x :| x in s;
    if s == {x} then x
    else
      var rest := s - {x};
      assert forall k :: k in s ==> k == x || k in rest;
      var y := SetMin(rest);
      if x < y then x else y
  }

  /** The list erase(index) removes index from: the smallest atom type holding it. */
  ghost function FirstHolder(lists: map<int, seq<int>>, index: int): (r: Option<int>)
    ensures r.Some? ==> r.value in lists && index in lists[r.value]
    ensures r.None? <==> forall id :: id in lists ==> index !in lists[id]
  {
    var h := Holders(lists, index);
    if h == {} then
      assert forall id :: id in lists && index in lists[id] ==> id in h;
      None
    else Some(SetMin(h))
  }

  lemma {:induction false} FirstHolderIs(lists: map<int, seq<int>>, index: int, id: int)
    requires id in lists && index in lists[id]
    requires forall k :: k in lists && k < id ==> index !in lists[k]
    ensures FirstHolder(lists, index) == Some(id)
  {
    assert id in Holders(lists, index);
  }

  /** The list of type id with the first occurrence of index removed. */
  function Removal(lists: map<int, seq<int>>, id: int, index: int): map<int, seq<int>>
    requires id in lists && index in lists[id]
  {
    var l := lists[id];
    var j := IndexOf(l, index);
    lists[id := l[..j] + l[j + 1..]]
  }

  /**
   * What erase(index) leaves in the lists: when some list holds index, its
   * first occurrence leaves the first such list and every list is shifted
   * down; otherwise nothing changes.
   */
  ghost function AfterErase(lists: map<int, seq<int>>, index: int): map<int, seq<int>>
  {
    match FirstHolder(lists, index)
    case None => lists
    case Some(id) => ShiftDownAll(Removal(lists, id, index), index)
  }

  // ---------------------------------------------------------------------
  // The tracking invariant

  predicate Unique(s: seq<int>)
  {
    forall a, b :: 0 <= a < b < |s| ==> s[a] != s[b]
  }

  /** Every tracked position is a particle of the list's type, and no list repeats a position. */
  ghost predicate Tracks(lists: map<int, seq<int>>, p: seq<Particle>)
  {
    && (forall id, j :: id in lists && 0 <= j < |lists[id]| ==> 0 <= lists[id][j] < |p| && p[lists[id][j]].id == id)
    && (forall id :: id in lists ==> Unique(lists[id]))
  }

  /** insert(a, index) at a position inside the vector (or just past it) keeps every list accurate. */
  lemma {:induction false} TrackingAfterInsert(lists: map<int, seq<int>>, p: seq<Particle>, index: int, a: Particle)
    requires Tracks(lists, p) && 0 <= index <= |p|
    ensures Tracks(AfterInsert(lists, index, a.id), Inserted(p, index, a))
  {
    var q := Inserted(p, index, a);
    var up := ShiftUpAll(lists, index);
    var r := AfterInsert(lists, index, a.id);
    forall id, j | id in up && 0 <= j < |up[id]|
      ensures 0 <= up[id][j] < |q| && q[up[id][j]].id == id && up[id][j] != index
    {
      var v := lists[id][j];
      if v >= index {
        assert q[v + 1] == p[v];
      } else {
        assert q[v] == p[v];
      }
    }
    forall id | id in up
      ensures Unique(up[id])
    {
      assert Unique(lists[id]);
    }
    forall id, j | id in r && 0 <= j < |r[id]|
      ensures 0 <= r[id][j] < |q| && q[r[id][j]].id == id
    {
      if id == a.id && j == |r[id]| - 1 {
        assert r[id][j] == index;
      } else {
        assert r[id][j] == up[id][j];
      }
    }
    forall id | id in r
      ensures Unique(r[id])
    {
      if id == a.id {
        var base := if id in up then up[id] else [];
        assert r[id] == base + [index];
        forall x, y | 0 <= x < y < |r[id]|
          ensures r[id][x] != r[id][y]
        {
          if y == |base| {
            assert r[id][x] == up[id][x];
          } else {
            assert r[id][x] == up[id][x] && r[id][y] == up[id][y];
          }
        }
      }
    }
  }

  /** On an accurate tracker, the position of particle index is held only by the list of its type. */
  lemma {:induction false} TrackedHolder(lists: map<int, seq<int>>, p: seq<Particle>, index: int)
    requires Tracks(lists, p) && 0 <= index < |p|
    requires p[index].id in lists && index in lists[p[index].id]
    ensures FirstHolder(lists, index) == Some(p[index].id)
  {
    var id := p[index].id;
    assert forall k :: k in lists && k < id ==> index !in lists[k];
    FirstHolderIs(lists, index, id);
  }

  /** Removing the entry at i from a list without repeats leaves a list without repeats, free of that entry. */
  lemma {:induction false} RemoveAtUnique(l: seq<int>, i: nat)
    requires i < |l| && Unique(l)
    ensures var c := l[..i] + l[i + 1..];
      && |c| == |l| - 1 && Unique(c)
      && forall j :: 0 <= j < |c| ==> c[j] == l[if j < i then j else j + 1] && c[j] != l[i]
  {
    var c := l[..i] + l[i + 1..];
    assert forall j :: 0 <= j < |c| ==> c[j] == l[if j < i then j else j + 1];
  }

  /** Accurate lists none of which holds index. */
  ghost predicate TracksAvoiding(lists: map<int, seq<int>>, p: seq<Particle>, index: int)
  {
    && Tracks(lists, p)
    && forall id, j :: id in lists && 0 <= j < |lists[id]| ==> lists[id][j] != index
  }

  /** Taking a tracked index out of its own list leaves accurate lists that no longer hold it. */
  lemma {:induction false} RemovalTracks(lists: map<int, seq<int>>, p: seq<Particle>, index: int)
    requires Tracks(lists, p) && 0 <= index < |p|
    requires p[index].id in lists && index in lists[p[index].id]
    ensures TracksAvoiding(Removal(lists, p[index].id, index), p, index)
  {
    var id := p[index].id;
    var l := lists[id];
    var i := IndexOf(l, index);
    var cut := Removal(lists, id, index);
    RemoveAtUnique(l, i);
    forall k, j | k in cut && 0 <= j < |cut[k]|
      ensures cut[k][j] != index
    {
      if k != id {
        var v := lists[k][j];
        assert p[v].id == k;
      }
    }
  }

  /** Shifting lists that avoid index down past it tracks the vector with index erased. */
  lemma {:induction false} ShiftDownTracks(lists: map<int, seq<int>>, p: seq<Particle>, index: int)
    requires TracksAvoiding(lists, p, index) && 0 <= index < |p|
    ensures Tracks(ShiftDownAll(lists, index), Removed(p, index))
  {
    var q := Removed(p, index);
    var r := ShiftDownAll(lists, index);
    forall k, j | k in r && 0 <= j < |r[k]|
      ensures 0 <= r[k][j] < |q| && q[r[k][j]].id == k
    {
      var v := lists[k][j];
      if v > index {
        assert q[v - 1] == p[v];
      } else {
        assert q[v] == p[v];
      }
    }
    forall k | k in r
      ensures Unique(r[k])
    {
      assert Unique(lists[k]);
    }
  }

  /** erase(index) of a tracked particle removes it from its own list and keeps every list accurate. */
  lemma {:induction false} TrackingAfterErase(lists: map<int, seq<int>>, p: seq<Particle>, index: int)
    requires Tracks(lists, p) && 0 <= index < |p|
    requires p[index].id in lists && index in lists[p[index].id]
    ensures FirstHolder(lists, index) == Some(p[index].id)
    ensures Tracks(AfterErase(lists, index), Removed(p, index))
  {
    TrackedHolder(lists, p, index);
    RemovalTracks(lists, p, index);
    ShiftDownTracks(Removal(lists, p[index].id, index), p, index);
  }

  /** No list holds index once every list has been shifted up past it. */
  lemma {:induction false} ShiftUpSkips(lists: map<int, seq<int>>, index: int, k: int)
    requires k in lists
    ensures index !in ShiftUpAll(lists, index)[k]
  {
    var s := ShiftUpAll(lists, index)[k];
    assert forall j :: 0 <= j < |s| ==> s[j] != index;
  }

  /** Shifting down past index undoes shifting up past it. */
  lemma {:induction false} ShiftDownUndoesUp(lists: map<int, seq<int>>, index: int)
    ensures ShiftDownAll(ShiftUpAll(lists, index), index) == lists
  {
    var r := ShiftDownAll(ShiftUpAll(lists, index), index);
    forall k | k in lists
      ensures r[k] == lists[k]
    {
      assert ShiftDown(ShiftUp(lists[k], index), index) == lists[k];
    }
  }

  /** Right after insert, the list of the inserted type is its shifted old list followed by index, which it did not hold. */
  lemma {:induction false} InsertedList(lists: map<int, seq<int>>, index: int, id: int)
    ensures var base := if id in lists then ShiftUp(lists[id], index) else [];
      && AfterInsert(lists, index, id)[id] == base + [index] && index !in base
  {
    if id in lists {
      ShiftUpSkips(lists, index, id);
    }
  }

  /** Right after insert, index is held by the inserted type only. */
  lemma {:induction false} InsertedHolder(lists: map<int, seq<int>>, index: int, id: int)
    ensures FirstHolder(AfterInsert(lists, index, id), index) == Some(id)
  {
    var l1 := AfterInsert(lists, index, id);
    InsertedList(lists, index, id);
    forall k | k in l1 && k < id
      ensures index !in l1[k]
    {
      ShiftUpSkips(lists, index, k);
    }
    FirstHolderIs(l1, index, id);
  }

  /** Taking index back out leaves the shifted lists, with the inserted type's list present. */
  lemma {:induction false} InsertedRemoval(lists: map<int, seq<int>>, index: int, id: int)
    ensures Removal(AfterInsert(lists, index, id), id, index)
            == ShiftUpAll(lists[id := if id in lists then lists[id] else []], index)
  {
    var l1 := AfterInsert(lists, index, id);
    InsertedList(lists, index, id);
    var base := if id in lists then ShiftUp(lists[id], index) else [];
    assert l1[id][..|base|] == base;
    IndexOfFirst(l1[id], index, |base|);
    var cut := Removal(l1, id, index);
    assert cut[id] == base;
    var full := ShiftUpAll(lists[id := if id in lists then lists[id] else []], index);
    assert forall k :: k in cut ==> cut[k] == full[k];
  }

  /**
   * Erasing the position just inserted gives back every list, except that the
   * list of the inserted type now exists even if it did not before.
   */
  lemma {:induction false} EraseUndoesTrackedInsert(lists: map<int, seq<int>>, index: int, id: int)
    ensures AfterErase(AfterInsert(lists, index, id), index)
            == lists[id := if id in lists then lists[id] else []]
  {
    InsertedHolder(lists, index, id);
    InsertedRemoval(lists, index, id);
    ShiftDownUndoesUp(lists[id := if id in lists then lists[id] else []], index);
  }

  /**
   * insert(a, -1) appends a to the vector but records -1, and moves every
   * tracked position up: a one-particle tracker is no longer accurate.
   */
  lemma {:induction false} AppendIsNotTracked(b: Particle, a: Particle)
    requires b.id == 0 && a.id == 1
    ensures Tracks(map[0 := [0]], [b])
    ensures !Tracks(AfterInsert(map[0 := [0]], -1, a.id), Inserted([b], InsertPosition(-1, 1), a))
  {
    var r := AfterInsert(map[0 := [0]], -1, a.id);
    var q := Inserted([b], InsertPosition(-1, 1), a);
    assert 0 in r && r[0] == ShiftUp([0], -1);
    assert r[0][0] == 1 && q[1] == a;
    assert !(0 <= r[0][0] < |q| && q[r[0][0]].id == 0);
  }

  // ---------------------------------------------------------------------
  // The tracker

  class AtomTracker {
    var spc: Space
    var lists: map<int, seq<int>>

    constructor (s: Space)
      ensures spc == s && lists == map[]
    {
      spc := s;
      lists := map[];
    }

    /** empty(): no atom type has a list. */
    function Empty(): (r: bool)
      reads this
      ensures r <==> lists == map[]
    {
      |lists| == 0
    }

    /** clear(): forget every list; the Space is untouched. */
    method Clear()
      modifies this
      ensures lists == map[] && spc == old(spc)
    {
      lists := map[];
    }

    /** operator[](id): the list of type id, created empty when missing. */
    method Get(id: int) returns (r: seq<int>)
      modifies this
      ensures lists == if id in old(lists) then old(lists) else old(lists)[id := []]
      ensures r == lists[id] && spc == old(spc)
    {
      if id !in lists {
        lists := lists[id := []];
      }
      r := lists[id];
    }

    /** The inner loop of insert: one list, each position at or past index moved up. */
    static method ShiftedUp(l: seq<int>, index: int) returns (r: seq<int>)
      ensures r == ShiftUp(l, index)
    {
      r := l;
      var k := 0;
      while k < |r|
        invariant 0 <= k <= |r| == |l|
        invariant forall m :: 0 <= m < k ==> r[m] == if l[m] >= index then l[m] + 1 else l[m]
        invariant forall m :: k <= m < |r| ==> r[m] == l[m]
      {
        if r[k] >= index {
          r := r[k := r[k] + 1];
        }
        k := k + 1;
      }
    }

    /** The inner loop of erase: one list, each position past index moved down. */
    static method ShiftedDown(l: seq<int>, index: int) returns (r: seq<int>)
      ensures r == ShiftDown(l, index)
    {
      r := l;
      var k := 0;
      while k < |r|
        invariant 0 <= k <= |r| == |l|
        invariant forall m :: 0 <= m < k ==> r[m] == if l[m] > index then l[m] - 1 else l[m]
        invariant forall m :: k <= m < |r| ==> r[m] == l[m]
      {
        if r[k] > index {
          r := r[k := r[k] - 1];
        }
        k := k + 1;
      }
    }

    method ShiftAllUp(index: int)
      modifies this
      ensures lists == ShiftUpAll(old(lists), index) && spc == old(spc)
    {
      var keys := lists.Keys;
      while keys != {}
        invariant keys <= lists.Keys && lists.Keys == old(lists).Keys && spc == old(spc)
        invariant forall k :: k in lists && k !in keys ==> lists[k] == ShiftUp(old(lists)[k], index)
        invariant forall k :: k in keys ==> lists[k] == old(lists)[k]
        decreases keys
      {
        HasMember(keys);
        var id :| id in keys;
        var shifted := ShiftedUp(lists[id], index);
        lists := lists[id := shifted];
        keys := keys - {id};
      }
      assert forall k :: k in lists ==> lists[k] == ShiftUpAll(old(lists), index)[k];
    }

    method ShiftAllDown(index: int)
      modifies this
      ensures lists == ShiftDownAll(old(lists), index) && spc == old(spc)
    {
      var keys := lists.Keys;
      while keys != {}
        invariant keys <= lists.Keys && lists.Keys == old(lists).Keys && spc == old(spc)
        invariant forall k :: k in lists && k !in keys ==> lists[k] == ShiftDown(old(lists)[k], index)
        invariant forall k :: k in keys ==> lists[k] == old(lists)[k]
        decreases keys
      {
        HasMember(keys);
        var id :| id in keys;
        var shifted := ShiftedDown(lists[id], index);
        lists := lists[id := shifted];
        keys := keys - {id};
      }
      assert forall k :: k in lists ==> lists[k] == ShiftDownAll(old(lists), index)[k];
    }

    /**
     * insert(a, index): the particle goes into the Space, every tracked
     * position at or past index moves up, and index joins the list of a's
     * type.  When index lies inside the vector (or just past it) an accurate
     * tracker stays accurate.
     */
    method Insert(a: Particle, index: int) returns (ok: bool)
      requires index >= -1
      requires index == -1 || index > |spc.p| || index <= |spc.trial|
      requires Distinct(spc.g)
      modifies this, spc, spc.g
      ensures ok && spc == old(spc) && spc.g == old(spc.g) && Distinct(spc.g)
      ensures var at := InsertPosition(index, old(|spc.p|));
        && spc.p == Inserted(old(spc.p), at, a)
        && spc.trial == (if index == -1 || index > old(|spc.p|) then old(spc.trial) + [a] else Inserted(old(spc.trial), index, a))
        && forall k :: 0 <= k < |spc.g| ==>
             spc.g[k].Front() == FrontAfterInsert(old(spc.g[k].Front()), at)
             && spc.g[k].Back() == BackAfterInsert(old(spc.g[k].Back()), at)
      ensures lists == AfterInsert(old(lists), index, a.id)
      ensures 0 <= index <= old(|spc.p|) && old(Tracks(lists, spc.p)) ==> Tracks(lists, spc.p)
    {
      ghost var p0, l0 := spc.p, lists;
      ok := spc.Insert(a, index);
      ShiftAllUp(index);
      var l := if a.id in lists then lists[a.id] else [];
      lists := lists[a.id := l + [index]];
      ok := true;
      if 0 <= index <= |p0| && Tracks(l0, p0) {
        TrackingAfterInsert(l0, p0, index, a);
      }
    }

    /**
     * The search of erase: the lists in ascending type order, stopping at the
     * first that holds index, whose first occurrence of index is removed.
     */
    method RemoveFirst(index: int) returns (deleted: bool)
      modifies this
      ensures spc == old(spc)
      ensures deleted <==> FirstHolder(old(lists), index).Some?
      ensures !deleted ==> lists == old(lists)
      ensures deleted ==> lists == Removal(old(lists), FirstHolder(old(lists), index).value, index)
    {
      deleted := false;
      ghost var holder := 0;
      var keys := lists.Keys;
      while keys != {} && !deleted
        invariant keys <= old(lists).Keys && spc == old(spc)
        invariant !deleted ==> lists == old(lists)
        invariant !deleted ==> forall k :: k in old(lists) && k !in keys ==> index !in old(lists)[k]
        invariant !deleted ==> forall k, m :: k in old(lists) && k !in keys && m in keys ==> k < m
        invariant deleted ==> holder in old(lists) && index in old(lists)[holder]
        invariant deleted ==> FirstHolder(old(lists), index) == Some(holder) && lists == Removal(old(lists), holder, index)
        decreases keys
      {
        ghost var least := SetMin(keys);
        var id :| id in keys && forall k :: k in keys ==> id <= k;
        var l := lists[id];
        var j := 0;
        while j < |l| && l[j] != index
          invariant 0 <= j <= |l| && index !in l[..j]
        {
          j := j + 1;
        }
        if j < |l| {
          IndexOfFirst(l, index, j);
          FirstHolderIs(old(lists), index, id);
          lists := lists[id := l[..j] + l[j + 1..]];
          deleted := true;
          holder := id;
        } else {
          assert l[..j] == l;
        }
        keys := keys - {id};
      }
    }

    /**
     * erase(index): the particle leaves the Space; the lists are searched in
     * ascending type order, the first occurrence of index leaves the first
     * list holding it, and then every position past index moves down.  The
     * result says whether any list held index.  Erasing a tracked particle
     * keeps an accurate tracker accurate.
     */
    method Erase(index: int) returns (deleted: bool)
      requires index >= 0
      requires index < |spc.p| ==> index < |spc.trial|
      requires Distinct(spc.g)
      modifies this, spc, spc.g
      ensures spc == old(spc) && spc.g == old(spc.g) && Distinct(spc.g)
      ensures index >= old(|spc.p|) ==> spc.p == old(spc.p) && spc.trial == old(spc.trial)
      ensures index < old(|spc.p|) ==> spc.p == Removed(old(spc.p), index) && spc.trial == Removed(old(spc.trial), index)
      ensures forall k :: 0 <= k < |spc.g| && index < old(|spc.p|) ==>
                spc.g[k].Front() == FrontAfterErase(old(spc.g[k].Front()), index)
                && spc.g[k].Back() == BackAfterErase(old(spc.g[k].Back()), index)
      ensures forall k :: 0 <= k < |spc.g| && index >= old(|spc.p|) ==>
                spc.g[k].begin == old(spc.g[k].begin) && spc.g[k].end == old(spc.g[k].end)
      ensures deleted <==> FirstHolder(old(lists), index).Some?
      ensures lists == AfterErase(old(lists), index)
      ensures index < old(|spc.p|) && old(Tracks(lists, spc.p))
              && old(spc.p[index].id) in old(lists) && index in old(lists)[old(spc.p[index].id)]
              ==> deleted && Tracks(lists, spc.p)
    {
      ghost var p0, l0 := spc.p, lists;
      var _ := spc.Erase(index);
      deleted := RemoveFirst(index);
      if deleted {
        ShiftAllDown(index);
      }
      if 0 <= index < |p0| && Tracks(l0, p0) && p0[index].id in l0 && index in l0[p0[index].id] {
        TrackingAfterErase(l0, p0, index);
      }
    }
  }
}
