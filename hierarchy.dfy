// The parent chains of the symbol table (src/lib/semanticHelper/SymbolTable.java),
// written over the map from each struct's name to its parent's name: the walk
// of checkParents, what it decides, and why a table whose chains all reach
// Object keeps that property when a struct is declared.
module Hierarchy {

  /** The name reached after k parent steps; a name without a parent stays where it is. */
  function Ancestor(parents: map<string, string>, n: string, k: nat): string
    decreases k
  {
    if k == 0 || n !in parents then n else Ancestor(parents, parents[n], k - 1)
  }

  /** The parent chain from n arrives at Object. */
  ghost predicate ReachesObject(parents: map<string, string>, n: string)
  {
    exists k: nat :: Ancestor(parents, n, k) == "Object"
  }

  /**
   * The walk of checkParents: from the name p, with the names already seen,
   * step to the parent until Object; a repeated name is a cycle, and a name
   * without a parent (a lookup that would fail) is refused as well.
   */
  function ParentWalk(parents: map<string, string>, p: string, seen: set<string>): bool
    decreases |parents.Keys - seen|
  {
    if p == "Object" then true
    else if p in seen || p !in parents then false
    else
      SeeingShrinks(parents.Keys, seen, p);
      ParentWalk(parents, parents[p], seen + {p})
  }

  /** Seeing one more name of the table leaves fewer unseen. */
  lemma SeeingShrinks(names: set<string>, seen: set<string>, p: string)
    requires p in names && p !in seen
    ensures |names - (seen + {p})| < |names - seen|
  {
    var rest := names - (seen + {p});
    assert names - seen == rest + {p};
  }

  /** The names of the first k steps of the chain from n. */
  function Visited(parents: map<string, string>, n: string, k: nat): (r: set<string>)
    ensures forall i :: 0 <= i < k ==> Ancestor(parents, n, i) in r
  {
    if k == 0 then {} else Visited(parents, n, k - 1) + {Ancestor(parents, n, k - 1)}
  }

  lemma {:induction false} VisitedWitness(parents: map<string, string>, n: string, k: nat, x: string)
    requires x in Visited(parents, n, k)
    ensures exists i :: 0 <= i < k && Ancestor(parents, n, i) == x
  {
    if Ancestor(parents, n, k - 1) != x {
      VisitedWitness(parents, n, k - 1, x);
    }
  }

  /** a steps and then t steps are a + t steps. */
  lemma {:induction false} AncestorAdd(parents: map<string, string>, n: string, a: nat, t: nat)
    ensures Ancestor(parents, n, a + t) == Ancestor(parents, Ancestor(parents, n, a), t)
    decreases a
  {
    if a > 0 && n in parents {
      AncestorAdd(parents, parents[n], a - 1, t);
    }
  }

  /** Once the chain revisits a name, it repeats forever; so if Object was not met before, it is never met. */
  lemma {:induction false} CycleNeverObject(parents: map<string, string>, n: string, i: nat, j: nat, k: nat)
    requires i < j && Ancestor(parents, n, i) == Ancestor(parents, n, j)
    requires forall m :: 0 <= m < j ==> Ancestor(parents, n, m) != "Object"
    ensures Ancestor(parents, n, k) != "Object"
    decreases k
  {
    if k >= j {
      var d := k - j;
      AncestorAdd(parents, n, j, d);
      AncestorAdd(parents, n, i, d);
      CycleNeverObject(parents, n, i, j, i + d);
    }
  }

  /**
   * The walk started j steps into the chain from n, having seen exactly the
   * first j names, none of them Object, decides whether the chain reaches Object.
   */
  lemma {:induction false} WalkDecides(parents: map<string, string>, n: string, j: nat, seen: set<string>)
    requires seen == Visited(parents, n, j)
    requires forall m :: 0 <= m < j ==> Ancestor(parents, n, m) != "Object" && Ancestor(parents, n, m) in parents
    ensures ParentWalk(parents, Ancestor(parents, n, j), seen) <==> ReachesObject(parents, n)
    decreases |parents.Keys - seen|
  {
    var p := Ancestor(parents, n, j);
    if p == "Object" {
    } else if p in seen {
      VisitedWitness(parents, n, j, p);
      var i :| 0 <= i < j && Ancestor(parents, n, i) == p;
      forall k: nat
        ensures Ancestor(parents, n, k) != "Object"
      {
        CycleNeverObject(parents, n, i, j, k);
      }
    } else if p !in parents {
      forall k: nat
        ensures Ancestor(parents, n, k) != "Object"
      {
        if k >= j {
          AncestorAdd(parents, n, j, k - j);
        }
      }
    } else {
      AncestorAdd(parents, n, j, 1);
      SeeingShrinks(parents.Keys, seen, p);
      WalkDecides(parents, n, j + 1, seen + {p});
    }
  }

  /** checkParents on a struct n with a parent: the walk succeeds exactly when n's chain reaches Object. */
  lemma CheckDecides(parents: map<string, string>, n: string)
    requires n in parents && n != "Object"
    ensures ParentWalk(parents, parents[n], {n}) <==> ReachesObject(parents, n)
  {
    assert Visited(parents, n, 1) == {n};
    WalkDecides(parents, n, 1, {n});
  }

  /** A name whose parent's chain reaches Object reaches it too. */
  lemma ParentReaches(parents: map<string, string>, n: string)
    requires n in parents && ReachesObject(parents, parents[n])
    ensures ReachesObject(parents, n)
  {
    var k: nat :| Ancestor(parents, parents[n], k) == "Object";
    assert Ancestor(parents, n, k + 1) == "Object";
  }

  /**
   * Changing the parents of the names in `changed` keeps n's chain reaching
   * Object when it did within k steps before and every changed name's chain
   * reaches Object afterwards.
   */
  lemma {:induction false} ReachesAfterUpdate(before: map<string, string>, after: map<string, string>,
                                              changed: set<string>, n: string, k: nat)
    requires Ancestor(before, n, k) == "Object"
    requires forall x :: x in before && x !in changed ==> x in after && after[x] == before[x]
    requires forall x :: x in changed ==> ReachesObject(after, x)
    ensures ReachesObject(after, n)
    decreases k
  {
    if n in changed {
    } else if k == 0 {
      assert Ancestor(after, n, 0) == "Object";
    } else if n !in before {
      assert Ancestor(after, n, 0) == "Object";
    } else {
      ReachesAfterUpdate(before, after, changed, before[n], k - 1);
      ParentReaches(after, n);
    }
  }

  /** The table-wide form: if every chain reached Object, and the changed names' chains still do, all still do. */
  lemma AllReachAfterUpdate(before: map<string, string>, after: map<string, string>,
                            changed: set<string>, names: set<string>)
    requires forall n :: n in names ==> ReachesObject(before, n)
    requires forall x :: x in before && x !in changed ==> x in after && after[x] == before[x]
    requires forall x :: x in changed ==> ReachesObject(after, x)
    ensures forall n :: n in names ==> ReachesObject(after, n)
  {
    forall n | n in names
      ensures ReachesObject(after, n)
    {
      var k: nat :| Ancestor(before, n, k) == "Object";
      ReachesAfterUpdate(before, after, changed, n, k);
    }
  }

  /**
   * Declaring s: s's own chain was checked, the children waiting for s now
   * have s as parent and nothing else moved; so every chain still reaches Object.
   */
  lemma AllReachAfterDeclare(before: map<string, string>, after: map<string, string>, names: set<string>,
                             s: string, waiting: set<string>)
    requires forall n :: n in names ==> ReachesObject(before, n)
    requires ReachesObject(after, s)
    requires forall w :: w in waiting ==> w in after && after[w] == s
    requires forall x :: x in before && x != s && x !in waiting ==> x in after && after[x] == before[x]
    ensures forall n :: n in names + {s} ==> ReachesObject(after, n)
  {
    forall w | w in waiting
      ensures ReachesObject(after, w)
    {
      ParentReaches(after, w);
    }
    AllReachAfterUpdate(before, after, waiting + {s}, names);
  }

  /** The waiting children of s take s as their parent. */
  function Adopt(parents: map<string, string>, waiting: seq<string>, s: string): (r: map<string, string>)
    ensures forall n :: n in r <==> n in parents || n in waiting
    ensures forall n :: n in r ==> r[n] == if n in waiting then s else parents[n]
  {
    map n | n in parents.Keys + (set w | w in waiting) :: if n in waiting then s else parents[n]
  }
}
