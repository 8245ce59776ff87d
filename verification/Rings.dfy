/** Circular doubly-linked lists with a dummy head, apart from the nodes' own links. */
module Rings {
  ghost predicate NoneTwice<T>(s: seq<T>) {
    forall i, j :: 0 <= i < j < |s| ==> s[i] != s[j]
  }

  /** The dummy head comes after the last node and before the first. */
  ghost function Node<T>(head: T, s: seq<T>, i: int): T
    requires -1 <= i <= |s|
  {
    if i == -1 || i == |s| then head else s[i]
  }

  /** Without the node at `i`, its neighbours are next to each other. */
  lemma Unlinked<T>(head: T, s: seq<T>, i: nat)
    requires head !in s && NoneTwice(s) && i < |s|
    ensures
      var t := s[..i] + s[i + 1..];
      && head !in t && NoneTwice(t) && s[i] !in t
      && (forall k :: -1 <= k < i ==> Node(head, t, k) == Node(head, s, k))
      && (forall k :: i <= k <= |t| ==> Node(head, t, k) == Node(head, s, k + 1))
      && (forall k :: -1 <= k <= |s| && k != i - 1 && (i > 0 || k != |s|) ==> Node(head, s, k) != Node(head, s, i - 1))
      && (forall k :: -1 <= k <= |s| && k != i + 1 && (i + 1 < |s| || k != -1) ==> Node(head, s, k) != Node(head, s, i + 1))
  {
  }
}
