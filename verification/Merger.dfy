/** The merging iterator: many sorted children seen as one sorted sequence. */
module Merger {
  import opened InternalKeys

  datatype Direction = Forward | Reverse

  ghost function UnionOf(children: seq<seq<Entry>>): set<Entry> {
    set i, e | 0 <= i < |children| && e in children[i] :: e
  }

  /** No key occurs in two children. */
  ghost predicate KeysApart(children: seq<seq<Entry>>) {
    forall i, j, a, b :: 0 <= i < |children| && 0 <= j < |children| && i != j && a in children[i] && b in children[j]
      ==> a.key != b.key
  }

  /** `all` is the sorted union of the children. */
  ghost predicate IsUnion(children: seq<seq<Entry>>, all: seq<Entry>) {
    && (forall i :: 0 <= i < |children| ==> Sorted(children[i]))
    && KeysApart(children)
    && Sorted(all)
    && Elements(all) == UnionOf(children)
  }

  /** Where a child's part of `all[k..]` begins. */
  function StartAt(child: seq<Entry>, all: seq<Entry>, k: nat): nat
    requires k <= |all|
  {
    if k < |all| then SeekIndex(child, all[k].key) else |child|
  }

  /** Position of the last of a child's entries in `all[..k]`, or not valid. */
  function EndAt(child: seq<Entry>, all: seq<Entry>, k: nat): nat
    requires k <= |all|
  {
    var s := StartAt(child, all, k);
    if s == 0 then |child| else s - 1
  }

  lemma InUnion(children: seq<seq<Entry>>, all: seq<Entry>, i: nat, j: nat) returns (m: nat)
    requires IsUnion(children, all) && i < |children| && j < |children[i]|
    ensures m < |all| && all[m] == children[i][j]
  {
    assert children[i][j] in children[i];
    assert children[i][j] in UnionOf(children) && children[i][j] in Elements(all);
    m :| 0 <= m < |all| && all[m] == children[i][j];
  }

  lemma FromUnion(children: seq<seq<Entry>>, all: seq<Entry>, m: nat) returns (i: nat, j: nat)
    requires IsUnion(children, all) && m < |all|
    ensures i < |children| && j < |children[i]| && all[m] == children[i][j]
  {
    assert all[m] in Elements(all) && all[m] in UnionOf(children);
    i :| 0 <= i < |children| && all[m] in children[i];
    j :| 0 <= j < |children[i]| && children[i][j] == all[m];
  }

  /** Passing entry `k` of the union moves on exactly the child that holds it. */
  lemma StartStep(children: seq<seq<Entry>>, all: seq<Entry>, i: nat, k: nat)
    requires IsUnion(children, all) && i < |children| && k < |all|
    ensures
      var child, s, t := children[i], StartAt(children[i], all, k), StartAt(children[i], all, k + 1);
      if s < |child| && child[s] == all[k] then t == s + 1 else t == s && all[k] !in child
  {
    var child, s, t := children[i], StartAt(children[i], all, k), StartAt(children[i], all, k + 1);
    if k + 1 < |all| {
      assert Less(all[k].key, all[k + 1].key);
    }
    forall j | 0 <= j < |child|
      ensures Less(child[j].key, all[k].key) || child[j] == all[k] || (k + 1 < |all| && !Less(child[j].key, all[k + 1].key))
    {
      var m := InUnion(children, all, i, j);
    }
    assert Sorted(child);
    if s < |child| && child[s] != all[k] {
      var m := InUnion(children, all, i, s);
      assert k < m && (k + 1 < m ==> Less(all[k + 1].key, all[m].key));
      assert k + 1 < |all| && !Less(child[s].key, all[k + 1].key);
    }
    if s + 1 < |child| && child[s] == all[k] {
      var m := InUnion(children, all, i, s + 1);
      assert Less(child[s].key, child[s + 1].key);
      assert k < m && (k + 1 < m ==> Less(all[k + 1].key, all[m].key));
    }
    if all[k] in child {
      var j :| 0 <= j < |child| && child[j] == all[k];
      assert s == j;
    }
  }

  /** A seek in a child agrees with a seek in the union. */
  lemma SeekStarts(children: seq<seq<Entry>>, all: seq<Entry>, i: nat, target: InternalKey)
    requires IsUnion(children, all) && i < |children|
    ensures SeekIndex(children[i], target) == StartAt(children[i], all, SeekIndex(all, target))
  {
    var child, k := children[i], SeekIndex(all, target);
    forall j | 0 <= j < |child|
      ensures Less(child[j].key, target) <==> k == |all| || Less(child[j].key, all[k].key)
    {
      var m := InUnion(children, all, i, j);
    }
  }

  lemma EndsBefore(children: seq<seq<Entry>>, all: seq<Entry>, i: nat, j: nat, m: nat, k: nat)
    requires IsUnion(children, all) && i < |children| && j < |children[i]| && m < |all| && k <= |all|
    requires j == EndAt(children[i], all, k) && children[i][j] == all[m]
    ensures m < k && (k - 1 == m || Less(all[m].key, all[k - 1].key))
  {
  }

  lemma FirstStarts(children: seq<seq<Entry>>, all: seq<Entry>, i: nat)
    requires IsUnion(children, all) && i < |children|
    ensures StartAt(children[i], all, 0) == 0
  {
    if children[i] != [] {
      var m := InUnion(children, all, i, 0);
    }
  }

  /** The iterator keeps, for each child, a position that is its length when the
      child iterator is not valid. */
  class MergingIterator {
    const children: seq<seq<Entry>>
    ghost const all: seq<Entry>
    const pos: array<nat>
    var current: Option<nat>
    var direction: Direction

    constructor (children: seq<seq<Entry>>, ghost all: seq<Entry>)
      requires IsUnion(children, all)
      ensures Valid() && fresh(pos) && this.children == children && this.all == all
      ensures Stands(|all|)
    {
      this.children, this.all := children, all;
      pos := new nat[|children|](i requires 0 <= i < |children| => |children[i]|);
      current, direction := None, Forward;
    }

    ghost predicate Valid()
      reads this, pos
    {
      && IsUnion(children, all)
      && pos.Length == |children|
      && (forall i :: 0 <= i < |children| ==> pos[i] <= |children[i]|)
      && (current.Some? ==> current.value < |children| && pos[current.value] < |children[current.value]|)
    }

    predicate ChildValid(i: nat)
      requires i < |children| && pos.Length == |children|
      reads pos
    {
      pos[i] < |children[i]|
    }

    function CurrentEntry(): Entry
      requires Valid() && current.Some?
      reads this, pos
    {
      children[current.value][pos[current.value]]
    }

    ghost predicate AtStarts(k: nat)
      requires pos.Length == |children| && k <= |all|
      reads pos
    {
      forall i :: 0 <= i < |children| ==> pos[i] == StartAt(children[i], all, k)
    }

    ghost predicate AtEnds(k: nat)
      requires pos.Length == |children| && k <= |all|
      reads pos
    {
      forall i :: 0 <= i < |children| ==> pos[i] == EndAt(children[i], all, k)
    }

    /** The iterator stands on entry `k` of the union, or on none if `k` is its
        length; every child is where the direction wants it. */
    ghost predicate Stands(k: nat)
      requires Valid()
      reads this, pos
    {
      && k <= |all|
      && (current.Some? <==> k < |all|)
      && (k < |all| ==>
            && CurrentEntry() == all[k]
            && if direction.Forward? then AtStarts(k) else AtEnds(k + 1))
    }

    method FindSmallest()
      requires Valid()
      modifies this`current
      ensures Valid()
      ensures current.None? ==> forall i :: 0 <= i < |children| ==> !ChildValid(i)
      ensures current.Some? ==> forall i :: 0 <= i < |children| && ChildValid(i) ==>
        !Less(children[i][pos[i]].key, CurrentEntry().key)
    {
      var smallest: Option<nat> := None;
      for i := 0 to |children|
        invariant smallest.Some? ==> smallest.value < i && ChildValid(smallest.value)
        invariant smallest.None? ==> forall j :: 0 <= j < i ==> !ChildValid(j)
        invariant smallest.Some? ==> forall j :: 0 <= j < i && ChildValid(j) ==>
          !Less(children[j][pos[j]].key, children[smallest.value][pos[smallest.value]].key)
      {
        if pos[i] < |children[i]| {
          if smallest.None? {
            smallest := Some(i);
          } else if Less(children[i][pos[i]].key, children[smallest.value][pos[smallest.value]].key) {
            smallest := Some(i);
          }
        }
      }
      current := smallest;
    }

    method FindLargest()
      requires Valid()
      modifies this`current
      ensures Valid()
      ensures current.None? ==> forall i :: 0 <= i < |children| ==> !ChildValid(i)
      ensures current.Some? ==> forall i :: 0 <= i < |children| && ChildValid(i) ==>
        !Less(CurrentEntry().key, children[i][pos[i]].key)
    {
      var largest: Option<nat> := None;
      for i := |children| downto 0
        invariant largest.Some? ==> i <= largest.value < |children| && ChildValid(largest.value)
        invariant largest.None? ==> forall j :: i <= j < |children| ==> !ChildValid(j)
        invariant largest.Some? ==> forall j :: i <= j < |children| && ChildValid(j) ==>
          !Less(children[largest.value][pos[largest.value]].key, children[j][pos[j]].key)
      {
        if pos[i] < |children[i]| {
          if largest.None? {
            largest := Some(i);
          } else if Less(children[largest.value][pos[largest.value]].key, children[i][pos[i]].key) {
            largest := Some(i);
          }
        }
      }
      current := largest;
    }

    /** The smallest of the children that start at `k` is entry `k`. */
    lemma SmallestIsNext(k: nat)
      requires Valid() && k <= |all| && AtStarts(k)
      requires current.None? ==> forall i :: 0 <= i < |children| ==> !ChildValid(i)
      requires current.Some? ==> forall i :: 0 <= i < |children| && ChildValid(i) ==>
        !Less(children[i][pos[i]].key, CurrentEntry().key)
      ensures current.Some? <==> k < |all|
      ensures k < |all| ==> CurrentEntry() == all[k]
    {
      if k < |all| {
        var i, j := FromUnion(children, all, k);
        StartStep(children, all, i, k);
        assert ChildValid(i) && pos[i] == j;
        var m := InUnion(children, all, current.value, pos[current.value]);
      }
    }

    /** The largest of the children that end before `k` is entry `k - 1`. */
    lemma LargestIsPrevious(k: nat)
      requires Valid() && k <= |all| && AtEnds(k)
      requires current.None? ==> forall i :: 0 <= i < |children| ==> !ChildValid(i)
      requires current.Some? ==> forall i :: 0 <= i < |children| && ChildValid(i) ==>
        !Less(CurrentEntry().key, children[i][pos[i]].key)
      ensures current.Some? <==> k > 0
      ensures k > 0 ==> CurrentEntry() == all[k - 1]
    {
      hide IsUnion;
      if k > 0 {
        var i, j := FromUnion(children, all, k - 1);
        StartStep(children, all, i, k - 1);
        assert children[i][j] in children[i];
        assert ChildValid(i) && children[i][pos[i]] == all[k - 1];
        var m := InUnion(children, all, current.value, pos[current.value]);
        EndsBefore(children, all, current.value, pos[current.value], m, k);
      } else if current.Some? {
        FirstStarts(children, all, current.value);
        assert false;
      }
    }

    method SeekToFirst()
      requires Valid()
      modifies this, pos
      ensures Valid() && Stands(0)
    {
      hide IsUnion, Less;
      current := None;
      for i := 0 to |children|
        modifies pos
        invariant Valid()
        invariant forall j :: 0 <= j < i ==> pos[j] == StartAt(children[j], all, 0)
      {
        FirstStarts(children, all, i);
        pos[i] := 0;
      }
      FindSmallest();
      direction := Forward;
      SmallestIsNext(0);
    }

    method SeekToLast()
      requires Valid()
      modifies this, pos
      ensures Valid() && Stands(if all == [] then 0 else |all| - 1)
    {
      hide IsUnion, Less;
      current := None;
      for i := 0 to |children|
        modifies pos
        invariant Valid()
        invariant forall j :: 0 <= j < i ==> pos[j] == EndAt(children[j], all, |all|)
      {
        pos[i] := if children[i] == [] then 0 else |children[i]| - 1;
      }
      FindLargest();
      direction := Reverse;
      LargestIsPrevious(|all|);
    }

    /** Lands on the first entry of the union at or after `target`. */
    method Seek(target: InternalKey)
      requires Valid()
      modifies this, pos
      ensures Valid() && Stands(SeekIndex(all, target))
    {
      hide IsUnion, Less;
      current := None;
      for i := 0 to |children|
        modifies pos
        invariant Valid()
        invariant forall j :: 0 <= j < i ==> pos[j] == StartAt(children[j], all, SeekIndex(all, target))
      {
        SeekStarts(children, all, i, target);
        pos[i] := SeekIndex(children[i], target);
      }
      FindSmallest();
      direction := Forward;
      SmallestIsNext(SeekIndex(all, target));
    }

    /** Moves to the next entry of the union, after a turn if need be. */
    method Next(ghost k: nat)
      requires Valid() && Stands(k) && k < |all|
      modifies this, pos
      ensures Valid() && Stands(k + 1)
    {
      hide IsUnion, Less;
      var c, key := current.value, CurrentEntry().key;
      if !direction.Forward? {
        TurnForward(c, key, k);
      }
      StartSteps(k);
      pos[c] := pos[c] + 1;
      assert AtStarts(k + 1);
      current := None;
      FindSmallest();
      SmallestIsNext(k + 1);
    }

    /** Moves to the previous entry of the union, after a turn if need be. */
    method Prev(ghost k: nat)
      requires Valid() && Stands(k) && k < |all|
      modifies this, pos
      ensures Valid() && Stands(if k == 0 then |all| else k - 1)
    {
      hide IsUnion, Less;
      var c, key := current.value, CurrentEntry().key;
      if !direction.Reverse? {
        TurnBack(c, key, k);
      }
      StartSteps(k);
      pos[c] := if pos[c] == 0 then |children[c]| else pos[c] - 1;
      assert AtEnds(k);
      current := None;
      FindLargest();
      LargestIsPrevious(k);
    }

    lemma StartSteps(k: nat)
      requires Valid() && k < |all| && current.Some? && CurrentEntry() == all[k]
      ensures forall i :: 0 <= i < |children| && i != current.value ==>
        StartAt(children[i], all, k + 1) == StartAt(children[i], all, k)
      ensures StartAt(children[current.value], all, k) == pos[current.value]
      ensures StartAt(children[current.value], all, k + 1) == pos[current.value] + 1
    {
      var c := current.value;
      assert all[k] in children[c];
      StartStep(children, all, c, k);
      assert forall j :: 0 <= j < pos[c] ==> Less(children[c][j].key, children[c][pos[c]].key);
      forall i | 0 <= i < |children| && i != c
        ensures StartAt(children[i], all, k + 1) == StartAt(children[i], all, k)
      {
        StartStep(children, all, i, k);
      }
    }

    /** Positions the other children after the current key. */
    method TurnForward(c: nat, key: InternalKey, ghost k: nat)
      requires Valid() && Stands(k) && k < |all| && current == Some(c) && key == all[k].key
      modifies this`direction, pos
      ensures Valid() && CurrentEntry() == all[k] && direction.Forward? && AtStarts(k)
    {
      hide IsUnion;
      StartSteps(k);
      for i := 0 to |children|
        modifies pos
        invariant Valid() && CurrentEntry() == all[k] && pos[c] == old(pos[c])
        invariant forall j :: 0 <= j < i ==> pos[j] == StartAt(children[j], all, k)
      {
        if i != c {
          StartStep(children, all, i, k);
          pos[i] := SeekIndex(children[i], key);
          if pos[i] < |children[i]| && children[i][pos[i]].key == key {
            assert false;  // would step past the key; no other child holds it
          }
        }
      }
      direction := Forward;
    }

    /** Positions the other children before the current key. */
    method TurnBack(c: nat, key: InternalKey, ghost k: nat)
      requires Valid() && Stands(k) && k < |all| && current == Some(c) && key == all[k].key
      modifies this`direction, pos
      ensures Valid() && CurrentEntry() == all[k] && direction.Reverse? && AtEnds(k + 1)
    {
      hide IsUnion, Less;
      StartSteps(k);
      for i := 0 to |children|
        modifies pos
        invariant Valid() && CurrentEntry() == all[k] && pos[c] == old(pos[c])
        invariant forall j :: 0 <= j < i ==> pos[j] == EndAt(children[j], all, k + 1)
      {
        if i != c {
          StartStep(children, all, i, k);
          pos[i] := SeekIndex(children[i], key);
          if pos[i] < |children[i]| {
            pos[i] := if pos[i] == 0 then |children[i]| else pos[i] - 1;
          } else {
            pos[i] := if children[i] == [] then 0 else |children[i]| - 1;
          }
        }
      }
      direction := Reverse;
    }
  }
}
