/** The view merge of daemon/sm.c: strip the lowest-scoring host until the rest are fully connected. */
module Merge {
  import opened MachineInts
  import opened Hosts
  import opened Scores

  /** Heartbeat rows as the merge edits them, and the hosts it has taken out. */
  datatype Rows = Rows(row: seq<HostMap>, removed: HostMap)

  /** Clear the row of `x` and the bit of `x` in every row. */
  function Purge(row: seq<HostMap>, x: nat): (r: seq<HostMap>)
    ensures |r| == |row|
    ensures forall i :: 0 <= i < |row| ==> r[i] == if i == x then {} else row[i] - {x}
  {
    seq(|row|, i requires 0 <= i < |row| => if i == x then {} else row[i] - {x})
  }

  /** Every row lies inside the hosts that are still candidates; removed hosts have empty rows. */
  ghost predicate WellFormed(s: Rows, n: nat) {
    |s.row| == n && s.removed <= Configured(n)
    && (forall i :: 0 <= i < n ==> s.row[i] <= Configured(n) - s.removed)
    && (forall i :: 0 <= i < n && i in s.removed ==> s.row[i] == {})
  }

  /** The candidate at or above `k` with the least score, the highest index on a tie; -1 if there is none. */
  function Selected(s: Rows, w: seq<U32>, n: nat, k: nat): (r: int)
    requires |s.row| == n <= |w| && n <= MAX_HOST_NUM && k <= n
    ensures r == -1 || (k <= r < n && r !in s.removed)
    ensures r == -1 <==> forall i :: k <= i < n ==> i in s.removed
    ensures r >= 0 ==> forall i :: k <= i < n && i !in s.removed ==>
                         Score(s.row[r], w, n) < Score(s.row[i], w, n) ||
                         (Score(s.row[r], w, n) == Score(s.row[i], w, n) && i <= r)
    decreases n - k
  {
    if k == n then -1
    else
      var best := Selected(s, w, n, k + 1);
      if k in s.removed then best
      else if best < 0 || Score(s.row[k], w, n) < Score(s.row[best], w, n) then k
      else best
  }

  predicate Stable(s: Rows, w: seq<U32>, n: nat)
    requires |s.row| == n <= |w| && n <= MAX_HOST_NUM
  {
    var sel := Selected(s, w, n, 0);
    Configured(n) <= (if sel < 0 then s.removed else s.row[sel] + s.removed)
  }

  /** One round: take out host `x`. */
  function Strike(s: Rows, x: nat): Rows {
    Rows(Purge(s.row, x), s.removed + {x})
  }

  /** The result of the greedy loop; it ends because a candidate leaves in every round. */
  function Reduce(s: Rows, w: seq<U32>, n: nat): (r: Rows)
    requires |s.row| == n <= |w| && n <= MAX_HOST_NUM
    ensures |r.row| == n && s.removed <= r.removed <= s.removed + Configured(n)
    decreases Configured(n) - s.removed
  {
    if Stable(s, w, n) then s
    else
      var sel := Selected(s, w, n, 0);
      assert sel in Configured(n) - s.removed;
      Reduce(Strike(s, sel), w, n)
  }

  /** The hosts left standing. */
  function Survivors(s: Rows, w: seq<U32>, n: nat): HostMap
    requires |s.row| == n <= |w| && n <= MAX_HOST_NUM
  {
    Configured(n) - Reduce(s, w, n).removed
  }

  lemma StrikeKeepsWellFormed(s: Rows, n: nat, x: nat)
    requires WellFormed(s, n) && x < n && x !in s.removed
    ensures WellFormed(Strike(s, x), n)
    ensures Configured(n) - Strike(s, x).removed < Configured(n) - s.removed
  {
    assert x in Configured(n) - s.removed;
  }

  /** When the loop stops, the minimum has the full score, so nobody else can have less. */
  lemma StableIsClique(s: Rows, w: seq<U32>, n: nat)
    requires n <= |w| && n <= MAX_HOST_NUM && WellFormed(s, n) && Stable(s, w, n)
    ensures forall i :: 0 <= i < n && i !in s.removed ==> s.row[i] == Configured(n) - s.removed
  {
    var rest := Configured(n) - s.removed;
    var sel := Selected(s, w, n, 0);
    forall i | 0 <= i < n && i !in s.removed
      ensures s.row[i] == rest
    {
      assert s.row[sel] == rest;
      if s.row[i] < rest {
        ScoreStrictlyMonotone(s.row[i], rest, w, n);
      }
    }
  }

  /** What is true of the rows when the loop has stopped. */
  ghost predicate Merged(s: Rows, r: Rows, n: nat)
    requires |s.row| == n
  {
    && WellFormed(r, n)
    && forall i :: 0 <= i < n && i !in r.removed ==>
         r.row[i] == Configured(n) - r.removed && r.row[i] == s.row[i] - r.removed
  }

  /**
   At exit every remaining host sees exactly the remaining hosts, every other row is empty, and
   the remaining rows are the original ones with the removed hosts struck out.
   */
  lemma {:induction false} ReduceLeavesClique(s: Rows, w: seq<U32>, n: nat)
    requires n <= |w| && n <= MAX_HOST_NUM && WellFormed(s, n)
    ensures Merged(s, Reduce(s, w, n), n)
    decreases Configured(n) - s.removed
  {
    if Stable(s, w, n) {
      StableIsClique(s, w, n);
    } else {
      var sel := Selected(s, w, n, 0);
      StrikeKeepsWellFormed(s, n, sel);
      ReduceLeavesClique(Strike(s, sel), w, n);
    }
  }

  /** Any two survivors were in each other's original rows. */
  lemma SurvivorsSeeEachOther(s: Rows, w: seq<U32>, n: nat, a: nat, b: nat)
    requires n <= |w| && n <= MAX_HOST_NUM && WellFormed(s, n)
    requires a in Survivors(s, w, n) && b in Survivors(s, w, n)
    ensures b in s.row[a] && a in s.row[b]
  {
    ReduceLeavesClique(s, w, n);
  }

  ghost predicate Reflexive(s: Rows, n: nat)
    requires |s.row| == n
  {
    forall i :: 0 <= i < n && i !in s.removed ==> i in s.row[i]
  }

  /** With every candidate in its own row, somebody survives as soon as there is a candidate. */
  lemma {:induction false} SomebodySurvives(s: Rows, w: seq<U32>, n: nat)
    requires n <= |w| && n <= MAX_HOST_NUM && WellFormed(s, n) && Reflexive(s, n)
    ensures Survivors(s, w, n) != {} <==> Configured(n) - s.removed != {}
    decreases Configured(n) - s.removed
  {
    if !Stable(s, w, n) {
      var sel := Selected(s, w, n, 0);
      var next := Strike(s, sel);
      StrikeKeepsWellFormed(s, n, sel);
      SomebodySurvives(next, w, n);
      var x :| x in Configured(n) && x !in s.row[sel] + s.removed;
      assert x in Configured(n) - next.removed;
    }
  }

  /** One self-containing row is not enough: here the tie removes host 1 first and then host 0. */
  lemma OneReflexiveRowIsNotEnough(w: seq<U32>)
    requires 2 <= |w|
    ensures var s := Rows([{1}, {1}], {});
            WellFormed(s, 2) && 1 in s.row[1] && Survivors(s, w, 2) == {}
  {
    var s0 := Rows([{1}, {1}], {});
    assert Selected(s0, w, 2, 2) == -1;
    assert Selected(s0, w, 2, 1) == 1;
    assert Selected(s0, w, 2, 0) == 1;
    assert 0 in Configured(2) && 1 in Configured(2);
    var s1 := Rows(Purge(s0.row, 1), {1});
    assert s0.removed + {1} == {1};
    assert Selected(s1, w, 2, 2) == -1;
    assert Selected(s1, w, 2, 1) == -1;
    assert Selected(s1, w, 2, 0) == 0;
    assert s1.row[0] == {};
    var s2 := Rows(Purge(s1.row, 0), {1} + {0});
    assert Reduce(s1, w, 2) == Reduce(s2, w, 2);
    assert Reduce(s0, w, 2) == Reduce(s1, w, 2);
  }

  /** The candidates' rows are the classes of an equivalence relation. */
  ghost predicate Partitioned(s: Rows, n: nat)
    requires |s.row| == n
  {
    && Reflexive(s, n)
    && (forall i, j :: 0 <= i < n && 0 <= j < n && i !in s.removed && j in s.row[i] ==>
          j !in s.removed && s.row[j] == s.row[i])
  }

  /** `b` is a candidate whose row has the greatest score. */
  ghost predicate Best(s: Rows, w: seq<U32>, n: nat, b: nat)
    requires |s.row| == n <= |w| && n <= MAX_HOST_NUM
  {
    && b < n && b !in s.removed
    && forall i :: 0 <= i < n && i !in s.removed ==> Score(s.row[i], w, n) <= Score(s.row[b], w, n)
  }

  /** Two classes with the same score share their lowest host. */
  lemma EqualScoresShareLowest(s: Rows, w: seq<U32>, n: nat, a: nat, b: nat)
    requires n <= |w| && n <= MAX_HOST_NUM && WellFormed(s, n) && Partitioned(s, n)
    requires a < n && b < n && a !in s.removed && b !in s.removed
    requires Score(s.row[a], w, n) == Score(s.row[b], w, n)
    ensures s.row[a] == s.row[b]
  {
    ScoreIsLexicographic(s.row[a], s.row[b], w, n);
    ScoreIsLexicographic(s.row[b], s.row[a], w, n);
    assert a in s.row[a] && b in s.row[b];
    var l := Lowest(s.row[a], n);
    assert l in s.row[a] && l in s.row[b];
  }

  lemma ClassesAreEqualOrDisjoint(s: Rows, n: nat, a: nat, b: nat)
    requires WellFormed(s, n) && Partitioned(s, n)
    requires a < n && b < n && a !in s.removed && b !in s.removed
    ensures s.row[a] == s.row[b] || s.row[a] * s.row[b] == {}
  {
    if s.row[a] * s.row[b] != {} {
      var x :| x in s.row[a] * s.row[b];
      assert s.row[x] == s.row[a];
    }
  }

  /** Candidate `i` belongs to class `c`, or is apart from it and scores below it. */
  ghost predicate Apart(s: Rows, w: seq<U32>, n: nat, c: HostMap, i: nat)
    requires |s.row| == n <= |w| && n <= MAX_HOST_NUM && i < n
  {
    if i in c then s.row[i] == c else s.row[i] * c == {} && Score(s.row[i], w, n) < Score(c, w, n)
  }

  ghost predicate Guarded(s: Rows, w: seq<U32>, n: nat, c: HostMap)
    requires |s.row| == n <= |w| && n <= MAX_HOST_NUM
  {
    forall i :: 0 <= i < n && i !in s.removed ==> Apart(s, w, n, c, i)
  }

  lemma StrikeKeepsGuarded(s: Rows, w: seq<U32>, n: nat, c: HostMap, x: nat)
    requires n <= |w| && n <= MAX_HOST_NUM && WellFormed(s, n) && Guarded(s, w, n, c)
    requires x < n && x !in s.removed && x !in c
    ensures Guarded(Strike(s, x), w, n, c)
  {
    var next := Strike(s, x);
    forall i | 0 <= i < n && i !in next.removed
      ensures Apart(next, w, n, c, i)
    {
      assert Apart(s, w, n, c, i);
      assert next.row[i] == s.row[i] - {x};
      if i in c {
        assert c - {x} == c;
      } else if x in s.row[i] {
        assert next.row[i] < s.row[i];
        ScoreStrictlyMonotone(next.row[i], s.row[i], w, n);
      } else {
        assert next.row[i] == s.row[i];
      }
    }
  }

  /** The best class is not selected as long as another candidate is left. */
  lemma BestClassNotSelected(s: Rows, w: seq<U32>, n: nat, c: HostMap, m: nat)
    requires n <= |w| && n <= MAX_HOST_NUM && WellFormed(s, n) && Guarded(s, w, n, c)
    requires m < n && m in c && m !in s.removed && c <= Configured(n) - s.removed
    ensures Stable(s, w, n) ==> Configured(n) - s.removed == c
    ensures !Stable(s, w, n) ==> Selected(s, w, n, 0) !in c
  {
    var sel := Selected(s, w, n, 0);
    assert Apart(s, w, n, c, m) && Apart(s, w, n, c, sel);
    if Stable(s, w, n) {
      StableIsClique(s, w, n);
    }
  }

  lemma {:induction false} GuardedClassSurvives(s: Rows, w: seq<U32>, n: nat, c: HostMap, m: nat)
    requires n <= |w| && n <= MAX_HOST_NUM && WellFormed(s, n) && Guarded(s, w, n, c)
    requires m in c && c <= Configured(n) - s.removed
    ensures Survivors(s, w, n) == c
    decreases Configured(n) - s.removed
  {
    BestClassNotSelected(s, w, n, c, m);
    if !Stable(s, w, n) {
      var sel := Selected(s, w, n, 0);
      StrikeKeepsWellFormed(s, n, sel);
      StrikeKeepsGuarded(s, w, n, c, sel);
      GuardedClassSurvives(Strike(s, sel), w, n, c, m);
    }
  }

  /** Of two hosts that do not see each other the merge keeps the heavier one, the first one on a tie. */
  lemma HeavierHostSurvives(w: seq<U32>)
    requires |w| >= 2
    ensures Survivors(Rows([{0}, {1}], {}), w, 2) == if w[1] > w[0] then {1} else {0}
  {
    var s := Rows([{0}, {1}], {});
    assert Configured(2) == {0, 1};
    SizeOfOne({0}, 0, w, 2);
    SizeOfOne({1}, 1, w, 2);
    MergeKeepsBestPartition(s, w, 2, if w[1] > w[0] then 1 else 0);
  }

  /** On a clean partition the merge keeps exactly the partition with the greatest score. */
  lemma MergeKeepsBestPartition(s: Rows, w: seq<U32>, n: nat, b: nat)
    requires n <= |w| && n <= MAX_HOST_NUM && WellFormed(s, n) && Partitioned(s, n)
    requires Best(s, w, n, b)
    ensures Survivors(s, w, n) == s.row[b]
  {
    var c := s.row[b];
    assert b in c;
    forall i | 0 <= i < n && i !in s.removed
      ensures Apart(s, w, n, c, i)
    {
      assert i in s.row[i];
      ClassesAreEqualOrDisjoint(s, n, i, b);
      if i !in c && Score(s.row[i], w, n) == Score(c, w, n) {
        EqualScoresShareLowest(s, w, n, i, b);
      }
    }
    GuardedClassSurvives(s, w, n, c, b);
  }
}
