/** Part ordering: the solver the geometry hands its "part a comes before
    part b" observations to (TransitiveMapping in the engine). The solver
    itself is not part of this model; what the geometry relies on is its
    interface: after Solve, IsConflicted says whether the observations
    contradict each other, and otherwise Mapping(i) is the provisional
    part placed i-th in an order that respects every observation. Here
    Solve is a topological sort that places, at each step, the lowest
    numbered part all of whose predecessors are already placed. */
module PartOrder {
  import opened Wrappers

  /** The observation that part before is above part after. */
  datatype Constraint = Precedes(before: nat, after: nat)

  /** No entry of s appears twice. */
  predicate Distinct(s: seq<nat>) {
    forall i, j :: 0 <= i < j < |s| ==> s[i] != s[j]
  }

  /** order lists each of the parts 0 .. count-1 exactly once. */
  predicate IsOrdering(count: nat, order: seq<nat>) {
    && |order| == count && Distinct(order)
    && (forall i :: 0 <= i < |order| ==> order[i] < count)
    && (forall p :: 0 <= p < count ==> p in order)
  }

  /** Giving part p the number rank[p] puts every observed earlier part
      strictly before its later part. */
  predicate Respects(rank: seq<nat>, cons: seq<Constraint>) {
    forall c :: c in cons ==>
      c.before < |rank| && c.after < |rank| && rank[c.before] < rank[c.after]
  }

  /** Every observation is about one of the parts 0 .. count-1. */
  predicate Within(count: nat, cons: seq<Constraint>) {
    forall c :: c in cons ==> c.before < count && c.after < count
  }

  /** Part p may be placed next: everything observed above it is placed. */
  predicate Ready(cons: seq<Constraint>, placed: seq<nat>, p: nat) {
    forall c :: c in cons && c.after == p ==> c.before in placed
  }

  /** The lowest numbered part from `from` on that is not placed yet and
      may be placed next. */
  function FirstReady(count: nat, cons: seq<Constraint>, placed: seq<nat>, from: nat): (r: Option<nat>)
    ensures r.Some? ==> from <= r.value < count && r.value !in placed && Ready(cons, placed, r.value)
    ensures r.None? ==> forall p :: from <= p < count && p !in placed ==> !Ready(cons, placed, p)
    decreases count - from
  {
    if from >= count then None
    else if from !in placed && Ready(cons, placed, from) then Some(from)
    else FirstReady(count, cons, placed, from + 1)
  }

  /** Placing parts one at a time after placed; none when no unplaced part
      is ready although some remain. */
  function Place(count: nat, cons: seq<Constraint>, placed: seq<nat>): (r: Option<seq<nat>>)
    requires |placed| <= count
    decreases count - |placed|
  {
    if |placed| == count then Some(placed)
    else
      match FirstReady(count, cons, placed, 0)
      case None => None
      case Some(p) => Place(count, cons, placed + [p])
  }

  /** TransitiveMapping::Solve: the order of the parts, or none when the
      observations conflict (IsConflicted). */
  function Solve(count: nat, cons: seq<Constraint>): Option<seq<nat>> {
    Place(count, cons, [])
  }

  /** The number each part gets from an ordering: its position in it. */
  function Inverse(count: nat, order: seq<nat>): (rank: seq<nat>)
    requires IsOrdering(count, order)
    ensures |rank| == count
    ensures forall i :: 0 <= i < count ==> rank[order[i]] == i
    ensures forall p :: 0 <= p < count ==> rank[p] < count && order[rank[p]] == p
  {
    seq(count, p requires 0 <= p < count && p in order => IndexOf(order, p))
  }

  function IndexOf(s: seq<nat>, x: nat): (i: nat)
    requires x in s
    ensures i < |s| && s[i] == x && x !in s[..i]
  {
    if s[0] == x then 0 else 1 + IndexOf(s[1..], x)
  }

  /** Appending keeps the positions of what was there and puts the new
      entry last. */
  lemma {:induction false} IndexOfAppend(s: seq<nat>, x: nat, y: nat)
    requires y in s + [x]
    ensures IndexOf(s + [x], y) == if y in s then IndexOf(s, y) else |s|
  {
    if s != [] && s[0] != y {
      assert (s + [x])[1..] == s[1..] + [x];
      IndexOfAppend(s[1..], x, y);
    }
  }

  /** Every part placed so far had all its observed predecessors placed
      before it. */
  predicate Settled(cons: seq<Constraint>, placed: seq<nat>) {
    forall i, c :: 0 <= i < |placed| && c in cons && c.after == placed[i] ==>
      c.before in placed[..i]
  }

  /** The parts still unplaced each have an observed predecessor that is
      unplaced as well: the sort is stuck. */
  predicate Stuck(count: nat, cons: seq<Constraint>, placed: seq<nat>) {
    forall p :: 0 <= p < count && p !in placed ==> !Ready(cons, placed, p)
  }

  /** The sort is stuck after placing q, with parts left over. */
  predicate StuckAt(count: nat, cons: seq<Constraint>, q: seq<nat>) {
    && |q| < count && Distinct(q) && Stuck(count, cons, q)
    && (forall i :: 0 <= i < |q| ==> q[i] < count)
  }

  /** What placing ends with: an ordering respecting the observations, or
      a stuck state with parts left over. */
  lemma {:induction false} PlaceResult(count: nat, cons: seq<Constraint>, placed: seq<nat>)
    requires |placed| <= count && Distinct(placed) && Settled(cons, placed)
    requires forall i :: 0 <= i < |placed| ==> placed[i] < count
    ensures var r := Place(count, cons, placed);
      && (r.Some? ==> |r.value| == count && Distinct(r.value) && Settled(cons, r.value)
                      && (forall i :: 0 <= i < count ==> r.value[i] < count))
      && (r.None? ==> exists q :: StuckAt(count, cons, q))
    decreases count - |placed|
  {
    if |placed| < count {
      var p := FirstReady(count, cons, placed, 0);
      if p.Some? {
        var next := placed + [p.value];
        assert next[..|placed|] == placed;
        forall i, c | 0 <= i < |next| && c in cons && c.after == next[i]
          ensures c.before in next[..i]
        {
          if i < |placed| {
            assert next[..i] == placed[..i];
          } else {
            assert next[..i] == placed;
          }
        }
        PlaceResult(count, cons, next);
      } else {
        assert StuckAt(count, cons, placed);
      }
    }
  }

  /** A list of distinct entries all taken from t is no longer than t. */
  lemma {:induction false} DistinctWithin(s: seq<nat>, t: seq<nat>)
    requires Distinct(s) && forall i :: 0 <= i < |s| ==> s[i] in t
    ensures |s| <= |t|
    decreases |s|
  {
    if s != [] {
      var x := s[|s| - 1];
      var k := IndexOf(t, x);
      var t' := t[..k] + t[k + 1..];
      forall i | 0 <= i < |s| - 1
        ensures s[i] in t'
      {
        var j := IndexOf(t, s[i]);
        assert s[i] != x;
        if j < k {
          assert t'[j] == s[i];
        } else {
          assert t'[j - 1] == s[i];
        }
      }
      DistinctWithin(s[..|s| - 1], t');
    }
  }

  /** The parts 0 .. count-1, in order. */
  function Parts(count: nat): (r: seq<nat>)
    ensures |r| == count && forall i :: 0 <= i < count ==> r[i] == i
  {
    seq(count, i => i)
  }

  /** count distinct parts below count are all of them. */
  lemma AllParts(count: nat, order: seq<nat>)
    requires |order| == count && Distinct(order)
    requires forall i :: 0 <= i < |order| ==> order[i] < count
    ensures IsOrdering(count, order)
  {
    forall p | 0 <= p < count
      ensures p in order
    {
      if p !in order {
        var others := seq(count - 1, i => if i < p then i else i + 1);
        forall i | 0 <= i < |order|
          ensures order[i] in others
        {
          var x := order[i];
          if x < p {
            assert others[x] == x;
          } else {
            assert others[x - 1] == x;
          }
        }
        DistinctWithin(order, others);
      }
    }
  }

  /** When the sort is stuck, no numbering of the parts respects the
      observations: following unplaced predecessors would have to descend
      forever. */
  lemma {:induction false} StuckHasNoOrder(count: nat, cons: seq<Constraint>, placed: seq<nat>,
                                           rank: seq<nat>, p: nat)
    requires Stuck(count, cons, placed) && p < count && p !in placed
    requires Within(count, cons)
    ensures !Respects(rank, cons)
    decreases if p < |rank| then rank[p] else 0
  {
    assert !Ready(cons, placed, p);
    var c :| c in cons && c.after == p && c.before !in placed;
    if c.before < |rank| && c.after < |rank| && rank[c.before] < rank[c.after] {
      StuckHasNoOrder(count, cons, placed, rank, c.before);
    }
  }

  /** The solver's answer: when it gives an order, that order lists every
      part once and its inverse numbering respects every observation. */
  lemma SolveOrders(count: nat, cons: seq<Constraint>)
    requires Within(count, cons) && Solve(count, cons).Some?
    ensures var order := Solve(count, cons).value;
      IsOrdering(count, order) && Respects(Inverse(count, order), cons)
  {
    PlaceResult(count, cons, []);
    var order := Solve(count, cons).value;
    AllParts(count, order);
    var rank := Inverse(count, order);
    forall c | c in cons
      ensures rank[c.before] < rank[c.after]
    {
      var i := rank[c.after];
      assert c.before in order[..i];
      var j :| 0 <= j < i && order[j] == c.before;
      assert rank[order[j]] == j;
    }
  }

  /** IsConflicted exactly when no numbering of the parts respects the
      observations. */
  lemma ConflictedIffNoOrder(count: nat, cons: seq<Constraint>)
    requires Within(count, cons)
    ensures Solve(count, cons).None? <==>
      forall rank :: |rank| == count ==> !Respects(rank, cons)
  {
    PlaceResult(count, cons, []);
    if Solve(count, cons).None? {
      var q :| StuckAt(count, cons, q);
      var p := Unplaced(count, q);
      forall rank | |rank| == count
        ensures !Respects(rank, cons)
      {
        StuckHasNoOrder(count, cons, q, rank, p);
      }
    } else {
      SolveOrders(count, cons);
      assert |Inverse(count, Solve(count, cons).value)| == count;
    }
  }

  /** Fewer than count distinct parts leave one of them out. */
  lemma Unplaced(count: nat, q: seq<nat>) returns (p: nat)
    requires |q| < count && Distinct(q)
    ensures p < count && p !in q
  {
    if forall x :: 0 <= x < count ==> x in q {
      DistinctWithin(Parts(count), q);
    }
    p :| p < count && p !in q;
  }
}
