/** Prerequisites of mock expectations: retiring them when a call is handled, and finding
    those that stand in the way of a call. The graph may have any shape without a cycle. */
module Prerequisites {

  class Expectation {
    // Fixed once the expectation has been declared.
    const prerequisites: seq<Expectation>
    const min: nat
    const max: nat
    const retiresOnSaturation: bool
    // The current state.
    var callCount: nat
    var retired: bool

    /** An expectation of between min and max calls; bounds in the wrong order are mended as
        BetweenCardinalityImpl does. */
    constructor (prerequisites: seq<Expectation>, min: int, max: int, retiresOnSaturation: bool)
      ensures this.prerequisites == prerequisites && this.retiresOnSaturation == retiresOnSaturation
      ensures 0 <= min <= max ==> this.min == min && this.max == max
      ensures this.min == (if min >= 0 then min else 0) && this.max == (if max >= this.min then max else this.min)
      ensures callCount == 0 && !retired
    {
      this.prerequisites := prerequisites;
      this.min := if min >= 0 then min else 0;
      this.max := if max >= 0 && max >= min then max else if min >= 0 then min else 0;
      this.retiresOnSaturation := retiresOnSaturation;
      callCount, retired := 0, false;
    }

    predicate IsSatisfied()
      reads this`callCount
    {
      min <= callCount <= max
    }

    predicate IsSaturated()
      reads this`callCount
    {
      callCount >= max
    }
  }

  /** The std::set that FindUnsatisfiedPrerequisites adds to. */
  class ExpectationSet {
    var expectations: set<Expectation>

    constructor ()
      ensures expectations == {}
    {
      expectations := {};
    }

    method Add(e: Expectation)
      modifies this
      ensures expectations == old(expectations) + {e}
    {
      expectations := expectations + {e};
    }
  }

  // ---------------------------------------------------------------------------
  // The graph
  // ---------------------------------------------------------------------------

  /** A path chooses a prerequisite at every step. */
  ghost predicate Leads(e: Expectation, path: seq<nat>, x: Expectation)
    decreases |path|
  {
    if path == [] then e == x
    else path[0] < |e.prerequisites| && Leads(e.prerequisites[path[0]], path[1..], x)
  }

  /** x is a transitive prerequisite of e. */
  ghost predicate Precedes(x: Expectation, e: Expectation) {
    exists path: seq<nat> :: path != [] && Leads(e, path, x)
  }

  ghost predicate Closed(world: set<Expectation>) {
    forall e, i | e in world && 0 <= i < |e.prerequisites| :: e.prerequisites[i] in world
  }

  /** All expectations of the program, none of them its own transitive prerequisite. */
  ghost predicate Acyclic(world: set<Expectation>) {
    Closed(world) && forall e | e in world :: !Precedes(e, e)
  }

  /** All transitive prerequisites of e. */
  ghost function Before(e: Expectation, world: set<Expectation>): set<Expectation> {
    set x | x in world && Precedes(x, e)
  }

  lemma {:induction false} LeadsJoin(e: Expectation, first: seq<nat>, m: Expectation, second: seq<nat>, x: Expectation)
    requires Leads(e, first, m) && Leads(m, second, x)
    ensures Leads(e, first + second, x)
    decreases |first|
  {
    if first == [] {
      assert first + second == second;
    } else {
      LeadsJoin(e.prerequisites[first[0]], first[1..], m, second, x);
      assert (first + second)[1..] == first[1..] + second;
    }
  }

  lemma PrecedesTransitive(x: Expectation, m: Expectation, e: Expectation)
    requires Precedes(x, m) && Precedes(m, e)
    ensures Precedes(x, e)
  {
    var first: seq<nat> :| first != [] && Leads(e, first, m);
    var second: seq<nat> :| second != [] && Leads(m, second, x);
    LeadsJoin(e, first, m, second, x);
    assert first + second != [];
  }

  lemma ImmediatePrecedes(e: Expectation, i: nat)
    requires i < |e.prerequisites|
    ensures Precedes(e.prerequisites[i], e)
  {
    var path := [i];
    assert path[1..] == [];
    assert Leads(e, path, e.prerequisites[i]);
  }

  /** A transitive prerequisite is an immediate one or precedes one. */
  lemma PrecedesFirst(x: Expectation, e: Expectation) returns (i: nat)
    requires Precedes(x, e)
    ensures i < |e.prerequisites|
    ensures x == e.prerequisites[i] || Precedes(x, e.prerequisites[i])
  {
    var path: seq<nat> :| path != [] && Leads(e, path, x);
    i := path[0];
    assert Leads(e.prerequisites[i], path[1..], x);
  }

  /** The recursion over prerequisites is well-founded. */
  lemma BeforeShrinks(e: Expectation, i: nat, world: set<Expectation>)
    requires Acyclic(world) && e in world && i < |e.prerequisites|
    ensures e.prerequisites[i] in Before(e, world)
    ensures Before(e.prerequisites[i], world) < Before(e, world)
  {
    var p := e.prerequisites[i];
    ImmediatePrecedes(e, i);
    forall x | x in Before(p, world) ensures x in Before(e, world) {
      PrecedesTransitive(x, p, e);
    }
    assert p !in Before(p, world);
  }

  /** The transitive prerequisites that come through the first n immediate ones. */
  ghost function BeforeUpTo(e: Expectation, n: nat, world: set<Expectation>): set<Expectation>
    requires n <= |e.prerequisites|
  {
    set x | x in world && exists i :: 0 <= i < n && (x == e.prerequisites[i] || x in Before(e.prerequisites[i], world))
  }

  lemma BeforeUpToAll(e: Expectation, world: set<Expectation>)
    requires Acyclic(world) && e in world
    ensures BeforeUpTo(e, |e.prerequisites|, world) == Before(e, world)
  {
    forall x | x in Before(e, world) ensures x in BeforeUpTo(e, |e.prerequisites|, world) {
      var i := PrecedesFirst(x, e);
    }
    forall x | x in BeforeUpTo(e, |e.prerequisites|, world) ensures x in Before(e, world) {
      var i :| 0 <= i < |e.prerequisites| && (x == e.prerequisites[i] || x in Before(e.prerequisites[i], world));
      BeforeShrinks(e, i, world);
    }
  }

  lemma BeforeUpToStep(e: Expectation, n: nat, world: set<Expectation>)
    requires Acyclic(world) && e in world && n < |e.prerequisites|
    ensures BeforeUpTo(e, n + 1, world)
         == BeforeUpTo(e, n, world) + {e.prerequisites[n]} + Before(e.prerequisites[n], world)
  {
  }

  // ---------------------------------------------------------------------------
  // Retiring
  // ---------------------------------------------------------------------------

  /** An expectation retires only after all its prerequisites. */
  ghost predicate RetiredClosed(world: set<Expectation>)
    reads world
  {
    forall e, i | e in world && e.retired && 0 <= i < |e.prerequisites| && e.prerequisites[i] in world ::
      e.prerequisites[i].retired
  }

  lemma {:induction false} RetiredReaches(e: Expectation, path: seq<nat>, x: Expectation, world: set<Expectation>)
    requires Closed(world) && RetiredClosed(world) && e in world && e.retired && Leads(e, path, x)
    ensures x in world && x.retired
    decreases |path|
  {
    if path != [] {
      RetiredReaches(e.prerequisites[path[0]], path[1..], x, world);
    }
  }

  /** So everything before a retired expectation is retired. */
  lemma RetiredBefore(e: Expectation, world: set<Expectation>)
    requires Closed(world) && RetiredClosed(world) && e in world && e.retired
    ensures forall x | x in Before(e, world) :: x.retired
  {
    forall x | x in Before(e, world) ensures x.retired {
      var path: seq<nat> :| path != [] && Leads(e, path, x);
      RetiredReaches(e, path, x, world);
    }
  }

  /** RetireAllPreRequisites: exactly the transitive prerequisites become retired. */
  method RetireAllPreRequisites(e: Expectation, ghost world: set<Expectation>)
    requires Acyclic(world) && e in world && RetiredClosed(world)
    modifies Before(e, world)`retired
    ensures RetiredClosed(world)
    ensures forall x | x in world :: x.retired <==> old(x.retired) || x in Before(e, world)
    decreases Before(e, world)
  {
    if e.retired {
      RetiredBefore(e, world);
      return;
    }
    var i := 0;
    while i < |e.prerequisites|
      invariant 0 <= i <= |e.prerequisites| && RetiredClosed(world)
      invariant forall x | x in world :: x.retired <==> old(x.retired) || x in BeforeUpTo(e, i, world)
    {
      var prerequisite := e.prerequisites[i];
      BeforeShrinks(e, i, world);
      BeforeUpToStep(e, i, world);
      if prerequisite.retired {
        RetiredBefore(prerequisite, world);
      } else {
        RetireAllPreRequisites(prerequisite, world);
        Retire(prerequisite, world);
      }
      i := i + 1;
    }
    BeforeUpToAll(e, world);
  }

  /** Retire, at a time when everything before the expectation is retired. */
  method Retire(e: Expectation, ghost world: set<Expectation>)
    requires Acyclic(world) && e in world && RetiredClosed(world)
    requires forall x | x in Before(e, world) :: x.retired
    modifies e`retired
    ensures RetiredClosed(world) && e.retired
  {
    forall i | 0 <= i < |e.prerequisites| ensures e.prerequisites[i] in Before(e, world) {
      BeforeShrinks(e, i, world);
    }
    e.retired := true;
  }

  // ---------------------------------------------------------------------------
  // Satisfaction
  // ---------------------------------------------------------------------------

  ghost predicate AllSatisfied(s: set<Expectation>)
    reads s
  {
    forall x | x in s :: x.IsSatisfied()
  }

  /** AllPrerequisitesAreSatisfied. */
  method AllPrerequisitesAreSatisfied(e: Expectation, ghost world: set<Expectation>) returns (r: bool)
    requires Acyclic(world) && e in world
    ensures r <==> AllSatisfied(Before(e, world))
    decreases Before(e, world)
  {
    var i := 0;
    while i < |e.prerequisites|
      invariant 0 <= i <= |e.prerequisites|
      invariant AllSatisfied(BeforeUpTo(e, i, world))
    {
      var prerequisite := e.prerequisites[i];
      BeforeShrinks(e, i, world);
      BeforeUpToStep(e, i, world);
      if !prerequisite.IsSatisfied() {
        return false;
      }
      var rest := AllPrerequisitesAreSatisfied(prerequisite, world);
      if !rest {
        return false;
      }
      i := i + 1;
    }
    BeforeUpToAll(e, world);
    return true;
  }

  /** A path to an unsatisfied expectation, all others on it satisfied and never called. */
  ghost predicate Blocks(e: Expectation, path: seq<nat>, x: Expectation, world: set<Expectation>)
    requires Closed(world) && e in world
    reads world
    decreases |path|
  {
    path != [] && path[0] < |e.prerequisites| &&
    var p := e.prerequisites[path[0]];
    if |path| == 1 then x == p && !p.IsSatisfied()
    else p.IsSatisfied() && p.callCount == 0 && Blocks(p, path[1..], x, world)
  }

  ghost predicate Blocker(e: Expectation, x: Expectation, world: set<Expectation>)
    requires Closed(world) && e in world
    reads world
  {
    exists path: seq<nat> :: Blocks(e, path, x, world)
  }

  /** The prerequisites to report when a call is refused. */
  ghost function Blockers(e: Expectation, world: set<Expectation>): set<Expectation>
    requires Closed(world) && e in world
    reads world
  {
    set x | x in world && Blocker(e, x, world)
  }

  /** A blocker is reached through an immediate prerequisite. */
  lemma BlockerFirst(e: Expectation, x: Expectation, world: set<Expectation>) returns (i: nat)
    requires Closed(world) && e in world && x in Blockers(e, world)
    ensures i < |e.prerequisites| && BlocksBy(e, i, x, world)
  {
    var path: seq<nat> :| Blocks(e, path, x, world);
    i := path[0];
    if |path| > 1 {
      assert Blocks(e.prerequisites[i], path[1..], x, world);
    }
  }

  /** Immediate prerequisite i is the blocker x, or may be passed on the way to it. */
  ghost predicate BlocksBy(e: Expectation, i: nat, x: Expectation, world: set<Expectation>)
    requires Closed(world) && e in world && i < |e.prerequisites|
    reads world
  {
    var p := e.prerequisites[i];
    if p.IsSatisfied() then p.callCount == 0 && x in Blockers(p, world) else x == p
  }

  lemma BlockerExtends(e: Expectation, i: nat, x: Expectation, world: set<Expectation>)
    requires Closed(world) && e in world && i < |e.prerequisites| && BlocksBy(e, i, x, world)
    ensures x in Blockers(e, world)
  {
    var p := e.prerequisites[i];
    var path := [i];
    if p.IsSatisfied() {
      var rest: seq<nat> :| Blocks(p, rest, x, world);
      path := [i] + rest;
      assert path[1..] == rest;
    }
    assert Blocks(e, path, x, world);
  }

  ghost function BlockersUpTo(e: Expectation, n: nat, world: set<Expectation>): set<Expectation>
    requires Closed(world) && e in world && n <= |e.prerequisites|
    reads world
  {
    set x | x in world && exists i :: 0 <= i < n && BlocksBy(e, i, x, world)
  }

  lemma BlockersUpToAll(e: Expectation, world: set<Expectation>)
    requires Closed(world) && e in world
    ensures BlockersUpTo(e, |e.prerequisites|, world) == Blockers(e, world)
  {
    forall x | x in Blockers(e, world) ensures x in BlockersUpTo(e, |e.prerequisites|, world) {
      var i := BlockerFirst(e, x, world);
    }
    forall x | x in BlockersUpTo(e, |e.prerequisites|, world) ensures x in Blockers(e, world) {
      var i :| 0 <= i < |e.prerequisites| && BlocksBy(e, i, x, world);
      BlockerExtends(e, i, x, world);
    }
  }

  lemma BlockersUpToStep(e: Expectation, n: nat, world: set<Expectation>)
    requires Closed(world) && e in world && n < |e.prerequisites|
    ensures var p := e.prerequisites[n];
            BlockersUpTo(e, n + 1, world) == BlockersUpTo(e, n, world) +
              (if !p.IsSatisfied() then {p} else if p.callCount == 0 then Blockers(p, world) else {})
  {
    var p := e.prerequisites[n];
    forall x | x in world
      ensures BlocksBy(e, n, x, world) <==>
              if p.IsSatisfied() then p.callCount == 0 && x in Blockers(p, world) else x == p
    {
    }
  }

  /** FindUnsatisfiedPrerequisites adds exactly the blockers. */
  method FindUnsatisfiedPrerequisites(e: Expectation, result: ExpectationSet, ghost world: set<Expectation>)
    requires Acyclic(world) && e in world
    modifies result
    ensures result.expectations == old(result.expectations) + Blockers(e, world)
    decreases Before(e, world)
  {
    var i := 0;
    while i < |e.prerequisites|
      invariant 0 <= i <= |e.prerequisites|
      invariant result.expectations == old(result.expectations) + BlockersUpTo(e, i, world)
    {
      var prerequisite := e.prerequisites[i];
      BeforeShrinks(e, i, world);
      BlockersUpToStep(e, i, world);
      if prerequisite.IsSatisfied() {
        if prerequisite.callCount == 0 {
          FindUnsatisfiedPrerequisites(prerequisite, result, world);
        }
      } else {
        result.Add(prerequisite);
      }
      i := i + 1;
    }
    BlockersUpToAll(e, world);
  }

  /** What the search relies on when it stops at a called expectation. */
  ghost predicate CalledIsSettled(world: set<Expectation>)
    reads world
  {
    forall e | e in world && e.IsSatisfied() && e.callCount > 0 ::
      forall x | x in Before(e, world) :: x.IsSatisfied()
  }

  lemma {:induction false} UnsatisfiedIsBlocked(e: Expectation, path: seq<nat>, x: Expectation, world: set<Expectation>)
    requires Acyclic(world) && CalledIsSettled(world) && e in world && x in world
    requires path != [] && Leads(e, path, x) && !x.IsSatisfied()
    ensures Blockers(e, world) != {}
    decreases |path|
  {
    var p := e.prerequisites[path[0]];
    if !p.IsSatisfied() {
      assert BlocksBy(e, path[0], p, world);
      BlockerExtends(e, path[0], p, world);
    } else {
      assert path[1..] != [];
      assert x in Before(p, world);
      UnsatisfiedIsBlocked(p, path[1..], x, world);
      var y :| y in Blockers(p, world);
      BlockerExtends(e, path[0], y, world);
    }
  }

  lemma {:induction false} BlocksIsBefore(e: Expectation, path: seq<nat>, x: Expectation, world: set<Expectation>)
    requires Closed(world) && e in world && Blocks(e, path, x, world)
    ensures Leads(e, path, x) && !x.IsSatisfied()
    decreases |path|
  {
    if |path| == 1 {
      assert path[1..] == [];
    } else {
      BlocksIsBefore(e.prerequisites[path[0]], path[1..], x, world);
    }
  }

  /** Every reported expectation is an unsatisfied transitive prerequisite. */
  lemma BlockersAreUnsatisfied(e: Expectation, x: Expectation, world: set<Expectation>)
    requires Closed(world) && e in world && x in Blockers(e, world)
    ensures x in Before(e, world) && !x.IsSatisfied()
  {
    var path: seq<nat> :| Blocks(e, path, x, world);
    BlocksIsBefore(e, path, x, world);
  }

  /** Nothing is reported exactly when all transitive prerequisites are satisfied. */
  lemma NothingBlocksIff(e: Expectation, world: set<Expectation>)
    requires Acyclic(world) && CalledIsSettled(world) && e in world
    ensures Blockers(e, world) == {} <==> AllSatisfied(Before(e, world))
  {
    if x :| x in Before(e, world) && !x.IsSatisfied() {
      var path: seq<nat> :| path != [] && Leads(e, path, x);
      UnsatisfiedIsBlocked(e, path, x, world);
    }
    if x :| x in Blockers(e, world) {
      BlockersAreUnsatisfied(e, x, world);
    }
  }

  // ---------------------------------------------------------------------------
  // Runs of calls
  // ---------------------------------------------------------------------------

  /** What every call keeps: retired expectations are satisfied and so are all before them,
      and the first call to an expectation that allows any retired everything before it. */
  ghost predicate Inv(world: set<Expectation>)
    reads world
  {
    && Acyclic(world) && RetiredClosed(world)
    && (forall e | e in world :: e.min <= e.max && (e.retired ==> e.IsSatisfied()))
    && (forall e | e in world && 0 < e.callCount && 0 < e.max :: forall x | x in Before(e, world) :: x.retired)
  }

  /** A called expectation that allows calls has all its prerequisites satisfied for good. */
  lemma CalledHasSatisfied(e: Expectation, world: set<Expectation>)
    requires Inv(world) && e in world && 0 < e.callCount && 0 < e.max
    ensures AllSatisfied(Before(e, world))
  {
    assert forall x | x in Before(e, world) :: x in world && x.retired;
  }

  /** In every reachable state the hypothesis of the search holds. */
  lemma InvSettles(world: set<Expectation>)
    requires Inv(world)
    ensures CalledIsSettled(world)
  {
  }

  /** Hence a refused call always has something to report. */
  lemma RefusalIsExplained(e: Expectation, world: set<Expectation>)
    requires Inv(world) && e in world
    ensures Blockers(e, world) == {} <==> AllSatisfied(Before(e, world))
  {
    InvSettles(world);
    NothingBlocksIff(e, world);
  }

  lemma {:induction false} LeadsInOld(e: Expectation, path: seq<nat>, x: Expectation, world: set<Expectation>)
    requires Closed(world) && e in world && Leads(e, path, x)
    ensures x in world
    decreases |path|
  {
    if path != [] {
      LeadsInOld(e.prerequisites[path[0]], path[1..], x, world);
    }
  }

  /** Declaring an expectation keeps the invariant: its prerequisites were there before it. */
  lemma DeclareKeepsInv(e: Expectation, world: set<Expectation>)
    requires Inv(world) && e !in world && e.callCount == 0 && !e.retired && e.min <= e.max
    requires forall i | 0 <= i < |e.prerequisites| :: e.prerequisites[i] in world
    ensures Inv(world + {e})
  {
    var more := world + {e};
    forall y, x | y in world && Precedes(x, y) ensures x in world {
      var path: seq<nat> :| path != [] && Leads(y, path, x);
      LeadsInOld(y, path, x, world);
    }
    if Precedes(e, e) {
      var i := PrecedesFirst(e, e);
    }
    forall y | y in world ensures Before(y, more) == Before(y, world) {
    }
  }

  /** The part of ShouldHandleArguments that is about the expectation's state. */
  method MayHandle(e: Expectation, ghost world: set<Expectation>) returns (r: bool)
    requires Acyclic(world) && e in world
    ensures r <==> !e.retired && AllSatisfied(Before(e, world))
  {
    if e.retired {
      return false;
    }
    r := AllPrerequisitesAreSatisfied(e, world);
  }

  /** Counting an excessive call. */
  method CountExcessive(e: Expectation, ghost world: set<Expectation>)
    requires Inv(world) && e in world && !e.retired && e.IsSaturated()
    modifies e`callCount
    ensures Inv(world) && e.callCount == old(e.callCount) + 1
  {
    e.callCount := e.callCount + 1;
  }

  /** Counting any other call, and retiring what comes before. */
  method CountAndRetire(e: Expectation, ghost world: set<Expectation>)
    requires Inv(world) && e in world && !e.retired && !e.IsSaturated() && AllSatisfied(Before(e, world))
    modifies e`callCount, Before(e, world)`retired
    ensures Inv(world) && e.callCount == old(e.callCount) + 1
    ensures forall x | x in world :: x.retired <==> old(x.retired) || x in Before(e, world)
  {
    e.callCount := e.callCount + 1;
    assert RetiredClosed(world);
    RetireAllPreRequisites(e, world);
  }

  /** GetActionForArguments, called for an expectation that may handle the call; `excessive`
      is its null result. Calls that may be handled never touch a retired expectation. */
  method GetActionForArguments(e: Expectation, ghost world: set<Expectation>) returns (excessive: bool)
    requires Inv(world) && e in world && !e.retired && AllSatisfied(Before(e, world))
    modifies e`callCount, e`retired, Before(e, world)`retired
    ensures Inv(world) && e.callCount == old(e.callCount) + 1
    ensures excessive <==> old(e.callCount) >= e.max
    ensures excessive ==> forall x | x in world :: x.retired == old(x.retired)
    ensures !excessive ==> e.IsSatisfied() || e.callCount < e.min
    ensures !excessive ==> forall x | x in world && x != e :: x.retired <==> old(x.retired) || x in Before(e, world)
    ensures !excessive ==> (e.retired <==> e.retiresOnSaturation && e.callCount == e.max)
  {
    excessive := e.IsSaturated();
    assert e !in Before(e, world);
    if excessive {
      CountExcessive(e, world);
      return;
    }
    CountAndRetire(e, world);
    if e.retiresOnSaturation && e.IsSaturated() {
      Retire(e, world);
    }
  }

  ghost predicate CanHandle(e: Expectation, world: set<Expectation>)
    reads world, e
  {
    !e.retired && AllSatisfied(Before(e, world))
  }

  /** FindMatchingExpectationLocked among the expectations of one mock function: the newest
      that matches the arguments and may handle the call, -1 if there is none. */
  method FindMatchingExpectation(expectations: seq<Expectation>, matches: seq<bool>, ghost world: set<Expectation>)
    returns (found: int)
    requires Acyclic(world) && |matches| == |expectations|
    requires forall i | 0 <= i < |expectations| :: expectations[i] in world
    ensures -1 <= found < |expectations|
    ensures found >= 0 ==> matches[found] && CanHandle(expectations[found], world)
    ensures forall i | found < i < |expectations| && matches[i] :: !CanHandle(expectations[i], world)
  {
    found := |expectations| - 1;
    while found >= 0
      invariant -1 <= found < |expectations|
      invariant forall i | found < i < |expectations| && matches[i] :: !CanHandle(expectations[i], world)
    {
      var may := MayHandle(expectations[found], world);
      if may && matches[found] {
        return;
      }
      found := found - 1;
    }
  }

  /** One mock function call. Whatever is retired is never called again, so the order that
      prerequisites ask for holds over whole runs. */
  method HandleCall(expectations: seq<Expectation>, matches: seq<bool>, ghost world: set<Expectation>)
    returns (found: int, excessive: bool)
    requires Inv(world) && |matches| == |expectations|
    requires forall i | 0 <= i < |expectations| :: expectations[i] in world
    modifies world`callCount, world`retired
    ensures Inv(world) && -1 <= found < |expectations|
    ensures found >= 0 ==> matches[found] && old(CanHandle(expectations[found], world))
    ensures forall i | found < i < |expectations| && matches[i] :: !old(CanHandle(expectations[i], world))
    ensures forall x | x in world ::
              x.callCount == old(x.callCount) + if found >= 0 && x == expectations[found] then 1 else 0
    ensures forall x | x in world && old(x.retired) :: x.retired && x.callCount == old(x.callCount)
    ensures found >= 0 && !excessive ==> forall x | x in Before(expectations[found], world) :: x.retired
    ensures excessive <==> found >= 0 && old(expectations[found].callCount) >= expectations[found].max
    ensures forall x | x in world :: x.retired <==>
              || old(x.retired)
              || (found >= 0 && !excessive && x in Before(expectations[found], world))
              || (found >= 0 && !excessive && x == expectations[found] && x.retiresOnSaturation && x.callCount == x.max)
  {
    excessive := false;
    found := FindMatchingExpectation(expectations, matches, world);
    if found >= 0 {
      var e := expectations[found];
      assert e !in Before(e, world);
      excessive := GetActionForArguments(e, world);
    }
  }

  /** An excessive call to an expectation that allows none leaves its prerequisite active,
      and more calls overrun that one. */
  method OverrunAfterExcessiveCall() returns (e: Expectation, p: Expectation, ghost world: set<Expectation>)
    ensures Inv(world) && e in world && p in Before(e, world)
    ensures e.callCount > 0 && e.max == 0 && !p.IsSatisfied()
  {
    world := {};
    p := new Expectation([], 0, 1, false);
    DeclareKeepsInv(p, world);
    world := world + {p};
    e := new Expectation([p], 0, 0, false);
    DeclareKeepsInv(e, world);
    world := world + {e};
    BeforeShrinks(e, 0, world);
    forall x | x in Before(e, world) ensures x == p {
      var i := PrecedesFirst(x, e);
    }
    assert Before(p, world) == {};
    var excessive := GetActionForArguments(e, world);
    excessive := GetActionForArguments(p, world);
    excessive := GetActionForArguments(p, world);
  }

  ghost predicate CalledAreSatisfied(m: nat, world: set<Expectation>)
    reads world
  {
    forall e | e in world && e.callCount > 0 && e.max == m :: AllSatisfied(Before(e, world))
  }

  /** Called expectations with upper bound m have all their prerequisites satisfied if and
      only if m is positive: then in every world with the invariant, so in all that calls
      lead to; and otherwise not in one that the calls above do lead to. */
  method CalledAreSatisfiedIff(m: nat) returns (holds: bool)
    ensures holds <==> forall world: set<Expectation> | Inv(world) :: CalledAreSatisfied(m, world)
    ensures holds <==> m > 0
  {
    holds := m > 0;
    if m == 0 {
      ghost var world;
      var e, p;
      e, p, world := OverrunAfterExcessiveCall();
      assert !CalledAreSatisfied(m, world);
    } else {
      forall world: set<Expectation>, e | Inv(world) && e in world && e.callCount > 0 && e.max == m
        ensures AllSatisfied(Before(e, world))
      {
        CalledHasSatisfied(e, world);
      }
    }
  }
}
