/** The two searches for the descendants of a process, over a static process table. */
module Descendants {

  /** The parent of every process; a corrupted or racing table may hold cycles. */
  type ParentTable = map<nat, nat>

  /** Following parents n times from the process leads to the root. */
  predicate DescendsIn(parents: ParentTable, root: nat, pid: nat, n: nat)
    decreases n
  {
    n > 0 && pid in parents && if n == 1 then parents[pid] == root else DescendsIn(parents, root, parents[pid], n - 1)
  }

  ghost predicate Descends(parents: ParentTable, root: nat, pid: nat) {
    exists n: nat :: DescendsIn(parents, root, pid, n)
  }

  /** The processes reachable from the root by one or more child edges. */
  ghost function DescendantsOf(parents: ParentTable, root: nat): set<nat> {
    set pid | pid in parents && Descends(parents, root, pid)
  }

  lemma ChildDescends(parents: ParentTable, root: nat, pid: nat)
    requires pid in parents && (parents[pid] == root || Descends(parents, root, parents[pid]))
    ensures Descends(parents, root, pid)
  {
    if parents[pid] == root {
      assert DescendsIn(parents, root, pid, 1);
    } else {
      var n: nat :| DescendsIn(parents, root, parents[pid], n);
      assert DescendsIn(parents, root, pid, n + 1);
    }
  }

  /** A set that holds every child of the root and of its own members holds every descendant. */
  ghost predicate Closed(parents: ParentTable, root: nat, found: set<nat>) {
    forall pid :: pid in parents && (parents[pid] == root || parents[pid] in found) ==> pid in found
  }

  lemma {:induction false} ClosedHoldsDescendants(parents: ParentTable, root: nat, found: set<nat>, pid: nat, n: nat)
    requires Closed(parents, root, found) && DescendsIn(parents, root, pid, n)
    ensures pid in found
    decreases n
  {
    if n > 1 {
      ClosedHoldsDescendants(parents, root, found, parents[pid], n - 1);
    }
  }

  lemma ExactlyDescendants(parents: ParentTable, root: nat, found: set<nat>)
    requires Closed(parents, root, found)
    requires forall pid :: pid in found ==> pid in parents && Descends(parents, root, pid)
    ensures found == DescendantsOf(parents, root)
  {
    forall pid | pid in parents && Descends(parents, root, pid)
      ensures pid in found
    {
      var n: nat :| DescendsIn(parents, root, pid, n);
      ClosedHoldsDescendants(parents, root, found, pid, n);
    }
  }

  // ----- The frontier search over the whole table -----

  /** The search of the collective launcher, whatever cycles the table holds. */
  method FrontierSearch(parents: ParentTable, root: nat) returns (result: set<nat>)
    ensures result == DescendantsOf(parents, root)
  {
    result := {};
    var frontier := {root};
    while frontier != {}
      invariant result <= parents.Keys && frontier <= result + {root}
      invariant forall pid :: pid in result ==> Descends(parents, root, pid)
      invariant forall pid :: pid in parents && parents[pid] !in frontier ==>
                  (parents[pid] == root || parents[pid] in result ==> pid in result)
      decreases parents.Keys - result, |frontier|
    {
      var children := set pid | pid in parents && parents[pid] in frontier && pid !in result;
      forall pid | pid in children
        ensures Descends(parents, root, pid)
      {
        ChildDescends(parents, root, pid);
      }
      if children == {} {
        assert |children| < |frontier|;
      }
      result := result + children;
      frontier := children;
    }
    ExactlyDescendants(parents, root, result);
  }

  // ----- The stack search over child lists -----

  /** The kernel's child lists of the same table, in any order. */
  type ChildLists = nat -> seq<nat>

  ghost predicate Lists(children: ChildLists, parents: ParentTable) {
    forall pid, child {:trigger child in children(pid)} :: child in children(pid) <==> child in parents && parents[child] == pid
  }

  /** Every child of the root and of a seen process is seen or pending. */
  ghost predicate Covered(parents: ParentTable, root: nat, seen: set<nat>, pending: seq<nat>) {
    && (forall pid :: pid in seen ==> pid in parents && Descends(parents, root, pid))
    && (forall pid :: pid in pending ==> pid in parents && Descends(parents, root, pid))
    && (forall pid :: pid in parents && (parents[pid] == root || parents[pid] in seen) ==> pid in seen || pid in pending)
  }

  lemma PopSeen(parents: ParentTable, root: nat, seen: set<nat>, pending: seq<nat>)
    requires Covered(parents, root, seen, pending) && pending != [] && pending[|pending| - 1] in seen
    ensures Covered(parents, root, seen, pending[..|pending| - 1])
  {
    assert pending == pending[..|pending| - 1] + [pending[|pending| - 1]];
  }

  lemma PopUnseen(parents: ParentTable, root: nat, seen: set<nat>, pending: seq<nat>, children: ChildLists)
    requires Covered(parents, root, seen, pending) && pending != [] && Lists(children, parents)
    ensures var child := pending[|pending| - 1];
            Covered(parents, root, seen + {child}, pending[..|pending| - 1] + children(child))
  {
    var child := pending[|pending| - 1];
    assert pending == pending[..|pending| - 1] + [child];
    assert child in pending;
    forall pid | pid in children(child)
      ensures pid in parents && Descends(parents, root, pid)
    {
      ChildDescends(parents, root, pid);
    }
  }

  /** The search of the run supervisor. */
  method StackSearch(parents: ParentTable, children: ChildLists, root: nat) returns (seen: set<nat>)
    requires Lists(children, parents)
    ensures seen == DescendantsOf(parents, root)
  {
    var pending := children(root);
    seen := {};
    forall pid | pid in pending
      ensures Descends(parents, root, pid)
    {
      ChildDescends(parents, root, pid);
    }
    while pending != []
      invariant Covered(parents, root, seen, pending)
      decreases parents.Keys - seen, |pending|
    {
      var child := pending[|pending| - 1];
      if child in seen {
        PopSeen(parents, root, seen, pending);
        pending := pending[..|pending| - 1];
      } else {
        assert child in pending;
        PopUnseen(parents, root, seen, pending, children);
        seen := seen + {child};
        pending := pending[..|pending| - 1] + children(child);
      }
    }
    ExactlyDescendants(parents, root, seen);
  }
}
