/**
 Choosing the best-scoring arm: the deterministic rule and the randomised tie-break.
 The draws of the random generator are a tape; the draw made with bound `n` is a number below `n`.
 */
module TieBreak {

  // ---- the deterministic rule ----

  ghost predicate IsLowestBest(scores: seq<real>, arm: nat) {
    && arm < |scores|
    && (forall j :: 0 <= j < |scores| ==> scores[j] <= scores[arm])
    && (forall j :: 0 <= j < arm ==> scores[j] < scores[arm])
  }

  /** The lowest index among the best of a nonempty list of scores. */
  function LowestBest(scores: seq<real>): (arm: nat)
    requires scores != []
    ensures IsLowestBest(scores, arm)
  {
    if |scores| == 1 then 0 else
      var prior := LowestBest(scores[..|scores| - 1]);
      if scores[|scores| - 1] > scores[prior] then |scores| - 1 else prior
  }

  lemma LowestBestUnique(scores: seq<real>, i: nat, j: nat)
    requires IsLowestBest(scores, i) && IsLowestBest(scores, j)
    ensures i == j
  {
    assert scores[i] <= scores[j] <= scores[i];
  }

  // ---- the randomised rule ----

  datatype Scan = Scan(arm: nat, tied: nat, used: nat)

  /** The scan over the first `k` scores: the arm held, how many tie with it, and the draws used. */
  function ScanTo(scores: seq<real>, tape: seq<nat>, k: nat): (s: Scan)
    requires 0 < k <= |scores|
    ensures s.arm < k && forall j :: 0 <= j < k ==> scores[j] <= scores[s.arm]
  {
    if k == 1 then Scan(0, 1, 0) else
      var s := ScanTo(scores, tape, k - 1);
      if scores[k - 1] > scores[s.arm] then Scan(k - 1, 1, s.used)
      else if scores[k - 1] == scores[s.arm] then
        Scan(if s.used < |tape| && tape[s.used] == 0 then k - 1 else s.arm, s.tied + 1, s.used + 1)
      else s
  }

  ghost predicate IsBest(scores: seq<real>, k: nat, arm: nat)
    requires k <= |scores|
  {
    arm < k && forall j :: 0 <= j < k ==> scores[j] <= scores[arm]
  }

  ghost function BestArms(scores: seq<real>, k: nat): set<nat>
    requires k <= |scores|
  {
    set arm: nat | arm < k && IsBest(scores, k, arm)
  }

  /** The bounds of the draws made over the first `k` scores; they do not depend on the draws. */
  ghost function Bounds(scores: seq<real>, k: nat): seq<nat>
    requires 0 < k <= |scores|
  {
    if k == 1 then [] else
      Bounds(scores, k - 1) +
        if IsBest(scores, k, k - 1) && |BestArms(scores, k)| > 1 then [|BestArms(scores, k)|] else []
  }

  /** All tapes the generator may produce for these bounds, each equally likely. */
  ghost function Tapes(bounds: seq<nat>): set<seq<nat>> {
    if bounds == [] then {[]} else
      Extend(Tapes(bounds[..|bounds| - 1]), 0, bounds[|bounds| - 1])
  }

  ghost function Extend(tapes: set<seq<nat>>, lo: nat, hi: nat): set<seq<nat>> {
    set t, d: nat | t in tapes && lo <= d < hi :: t + [d]
  }

  ghost function Append(tapes: set<seq<nat>>, d: nat): set<seq<nat>> {
    set t | t in tapes :: t + [d]
  }

  lemma {:induction false} TapesAre(bounds: seq<nat>, t: seq<nat>)
    ensures t in Tapes(bounds) <==> |t| == |bounds| && forall i :: 0 <= i < |t| ==> t[i] < bounds[i]
  {
    if bounds == [] {
    } else {
      var init := bounds[..|bounds| - 1];
      if t != [] {
        var head := t[..|t| - 1];
        TapesAre(init, head);
        assert t == head + [t[|t| - 1]];
        if t in Tapes(bounds) {
          var h, d: nat :| h in Tapes(init) && d < bounds[|bounds| - 1] && t == h + [d];
          assert h == head;
        }
      }
    }
  }

  lemma {:induction false} AppendCount(tapes: set<seq<nat>>, d: nat)
    ensures |Append(tapes, d)| == |tapes|
  {
    if tapes == {} {
      assert Append(tapes, d) == {};
    } else {
      var t :| t in tapes;
      AppendCount(tapes - {t}, d);
      assert Append(tapes, d) == Append(tapes - {t}, d) + {t + [d]};
      forall u | u in tapes && u + [d] == t + [d] ensures u == t {
        assert u == (u + [d])[..|u + [d]| - 1];
        assert t == (t + [d])[..|t + [d]| - 1];
      }
    }
  }

  lemma ExtendSplit(tapes: set<seq<nat>>, lo: nat, d: nat)
    requires lo <= d
    ensures |Extend(tapes, lo, d + 1)| == |Extend(tapes, lo, d)| + |Append(tapes, d)|
  {
    forall u | u in Extend(tapes, lo, d) ensures u[|u| - 1] < d {
      var t, e: nat :| t in tapes && lo <= e < d && u == t + [e];
    }
    forall u | u in Extend(tapes, lo, d + 1) ensures u in Extend(tapes, lo, d) || u in Append(tapes, d) {
      var t, e: nat :| t in tapes && lo <= e < d + 1 && u == t + [e];
    }
    assert Extend(tapes, lo, d + 1) == Extend(tapes, lo, d) + Append(tapes, d);
    assert Extend(tapes, lo, d) !! Append(tapes, d);
  }

  lemma {:induction false} ExtendCount(tapes: set<seq<nat>>, lo: nat, hi: nat, n: nat)
    requires hi == lo + n
    ensures |Extend(tapes, lo, hi)| == |tapes| * n
  {
    if n == 0 {
      assert Extend(tapes, lo, hi) == {};
    } else {
      ExtendCount(tapes, lo, hi - 1, n - 1);
      AppendCount(tapes, hi - 1);
      ExtendSplit(tapes, lo, hi - 1);
    }
  }

  // ---- the scan follows the bounds ----

  /** How the best arms change when one more score is seen. */
  lemma BestArmsStep(scores: seq<real>, k: nat, held: nat)
    requires 1 < k <= |scores| && IsBest(scores, k - 1, held)
    ensures scores[k - 1] > scores[held] ==> BestArms(scores, k) == {k - 1}
    ensures scores[k - 1] == scores[held] ==>
      BestArms(scores, k) == BestArms(scores, k - 1) + {k - 1} && |BestArms(scores, k)| == |BestArms(scores, k - 1)| + 1
    ensures scores[k - 1] < scores[held] ==> BestArms(scores, k) == BestArms(scores, k - 1)
  {
    var before, after := BestArms(scores, k - 1), BestArms(scores, k);
    forall arm: nat ensures arm in after <==>
      (if scores[k - 1] > scores[held] then arm == k - 1
       else if scores[k - 1] == scores[held] then arm in before || arm == k - 1 else arm in before)
    {
      if arm < k - 1 && IsBest(scores, k, arm) { assert scores[held] <= scores[arm]; }
      if IsBest(scores, k - 1, arm) { assert scores[arm] == scores[held]; }
      if IsBest(scores, k, k - 1) { assert scores[held] <= scores[k - 1]; }
    }
  }

  /** Ties and draws used are determined by the scores alone, and later draws are not read. */
  lemma {:induction false} ScanShape(scores: seq<real>, tape: seq<nat>, k: nat)
    requires 0 < k <= |scores|
    ensures ScanTo(scores, tape, k).tied == |BestArms(scores, k)|
    ensures ScanTo(scores, tape, k).used == |Bounds(scores, k)|
    ensures ScanTo(scores, tape, k).arm in BestArms(scores, k)
  {
    if k == 1 {
      assert BestArms(scores, 1) == {0};
    } else {
      ScanShape(scores, tape, k - 1);
      var held := ScanTo(scores, tape, k - 1).arm;
      BestArmsStep(scores, k, held);
      if scores[k - 1] == scores[held] {
        assert held in BestArms(scores, k - 1);
        assert IsBest(scores, k, k - 1);
      } else if scores[k - 1] < scores[held] {
        assert !IsBest(scores, k, k - 1);
      }
    }
  }

  lemma {:induction false} ScanPrefix(scores: seq<real>, tape: seq<nat>, longer: seq<nat>, k: nat)
    requires 0 < k <= |scores| && |tape| >= |Bounds(scores, k)| && tape <= longer
    ensures ScanTo(scores, longer, k) == ScanTo(scores, tape, k)
  {
    if k == 1 {
    } else {
      ScanPrefix(scores, tape, longer, k - 1);
      ScanShape(scores, tape, k - 1);
      ScanShape(scores, tape, k);
    }
  }

  /** The tapes on which the scan over the first `k` scores ends holding `arm`. */
  ghost function Winning(scores: seq<real>, k: nat, arm: nat): set<seq<nat>>
    requires 0 < k <= |scores|
  {
    set t | t in Tapes(Bounds(scores, k)) && ScanTo(scores, t, k).arm == arm
  }

  /** Where a tie is drawn: zero takes the new arm, anything else keeps the old one. */
  lemma TieDraw(scores: seq<real>, k: nat, t: seq<nat>, d: nat)
    requires 1 < k <= |scores| && IsBest(scores, k, k - 1) && |BestArms(scores, k)| > 1
    requires t in Tapes(Bounds(scores, k - 1))
    ensures ScanTo(scores, t + [d], k).arm == if d == 0 then k - 1 else ScanTo(scores, t, k - 1).arm
  {
    TapesAre(Bounds(scores, k - 1), t);
    ScanPrefix(scores, t, t + [d], k - 1);
    ScanShape(scores, t, k - 1);
    BestArmsStep(scores, k, ScanTo(scores, t, k - 1).arm);
  }

  lemma TieTapes(scores: seq<real>, k: nat)
    requires 1 < k <= |scores| && IsBest(scores, k, k - 1) && |BestArms(scores, k)| > 1
    ensures Tapes(Bounds(scores, k)) == Extend(Tapes(Bounds(scores, k - 1)), 0, |BestArms(scores, k)|)
  {
    assert Bounds(scores, k)[..|Bounds(scores, k)| - 1] == Bounds(scores, k - 1);
  }

  lemma TieStep(scores: seq<real>, k: nat, arm: nat)
    requires 1 < k <= |scores| && IsBest(scores, k, k - 1) && |BestArms(scores, k)| > 1
    ensures Winning(scores, k, arm) ==
      if arm == k - 1 then Extend(Tapes(Bounds(scores, k - 1)), 0, 1)
      else Extend(Winning(scores, k - 1, arm), 1, |BestArms(scores, k)|)
  {
    var tapes, b := Tapes(Bounds(scores, k - 1)), |BestArms(scores, k)|;
    TieTapes(scores, k);
    forall t, d: nat | t in tapes && d < b
      ensures t + [d] in Winning(scores, k, arm) <==>
        (if arm == k - 1 then d == 0 else d > 0 && t in Winning(scores, k - 1, arm))
    {
      TieDraw(scores, k, t, d);
      assert t + [d] in Extend(tapes, 0, b);
    }
    SplitExtend(tapes, Winning(scores, k, arm),
                if arm == k - 1 then tapes else Winning(scores, k - 1, arm),
                if arm == k - 1 then 0 else 1, if arm == k - 1 then 1 else b, b);
  }

  lemma SplitExtend(tapes: set<seq<nat>>, part: set<seq<nat>>, sub: set<seq<nat>>, lo: nat, hi: nat, b: nat)
    requires sub <= tapes && hi <= b && part <= Extend(tapes, 0, b)
    requires forall t, d: nat :: t in tapes && d < b ==>
      (t + [d] in part <==> t in sub && lo <= d < hi)
    ensures part == Extend(sub, lo, hi)
  {
    forall u | u in part ensures u in Extend(sub, lo, hi) {
      var t, d: nat :| t in tapes && d < b && u == t + [d];
    }
    forall u | u in Extend(sub, lo, hi) ensures u in part {
      var t, d: nat :| t in sub && lo <= d < hi && u == t + [d];
    }
  }

  /**
   Fairness: of all tapes, equally many end on each best arm (the total divided by the number of
   best arms) and none on any other arm.
   */
  lemma {:induction false} FairTo(scores: seq<real>, k: nat, arm: nat)
    requires 0 < k <= |scores|
    ensures arm in BestArms(scores, k) ==>
      |Winning(scores, k, arm)| * |BestArms(scores, k)| == |Tapes(Bounds(scores, k))|
    ensures arm !in BestArms(scores, k) ==> Winning(scores, k, arm) == {}
  {
    forall t | t in Winning(scores, k, arm) ensures arm in BestArms(scores, k) {
      ScanShape(scores, t, k);
    }
    if arm in BestArms(scores, k) {
      FairBest(scores, k, arm);
    }
  }

  /** The tapes are shared equally among the best arms. */
  ghost predicate FairAt(scores: seq<real>, k: nat, arm: nat)
    requires 0 < k <= |scores|
  {
    |Winning(scores, k, arm)| * |BestArms(scores, k)| == |Tapes(Bounds(scores, k))|
  }

  lemma {:induction false} FairBest(scores: seq<real>, k: nat, arm: nat)
    requires 0 < k <= |scores| && arm in BestArms(scores, k)
    ensures FairAt(scores, k, arm)
  {
    if k == 1 {
      assert BestArms(scores, 1) == {0};
      FairAlone(scores, 1, 0);
    } else {
      if arm < k - 1 { FairBest(scores, k - 1, arm); }
      FairNext(scores, k, arm, ScanTo(scores, [], k - 1).arm);
    }
  }

  lemma FairNext(scores: seq<real>, k: nat, arm: nat, held: nat)
    requires 1 < k <= |scores| && arm in BestArms(scores, k) && IsBest(scores, k - 1, held)
    requires arm < k - 1 ==> FairAt(scores, k - 1, arm)
    ensures FairAt(scores, k, arm)
  {
    BestArmsStep(scores, k, held);
    if scores[k - 1] > scores[held] {
      FairAlone(scores, k, arm);
    } else if scores[k - 1] < scores[held] {
      FairSkip(scores, k, arm, held);
    } else {
      assert held in BestArms(scores, k - 1);
      FairTied(scores, k, arm);
    }
  }

  lemma FairTied(scores: seq<real>, k: nat, arm: nat)
    requires 1 < k <= |scores| && IsBest(scores, k, k - 1) && |BestArms(scores, k)| == |BestArms(scores, k - 1)| + 1 > 1
    requires arm != k - 1 ==> FairAt(scores, k - 1, arm)
    ensures FairAt(scores, k, arm)
  {
    FairTie(scores, k, arm);
    if arm != k - 1 {
      FairProduct(|Winning(scores, k - 1, arm)|, |BestArms(scores, k)|, |Tapes(Bounds(scores, k - 1))|);
    }
  }

  /** A single best arm wins on every tape. */
  lemma FairAlone(scores: seq<real>, k: nat, arm: nat)
    requires 0 < k <= |scores| && BestArms(scores, k) == {arm}
    ensures Winning(scores, k, arm) == Tapes(Bounds(scores, k)) && FairAt(scores, k, arm)
  {
    forall t | t in Tapes(Bounds(scores, k)) ensures t in Winning(scores, k, arm) {
      ScanShape(scores, t, k);
    }
  }

  /** A score below the best changes neither the bounds nor the outcome. */
  lemma FairSkip(scores: seq<real>, k: nat, arm: nat, held: nat)
    requires 1 < k <= |scores| && IsBest(scores, k - 1, held) && scores[k - 1] < scores[held]
    ensures Bounds(scores, k) == Bounds(scores, k - 1)
    ensures Winning(scores, k, arm) == Winning(scores, k - 1, arm)
  {
    assert !IsBest(scores, k, k - 1);
    forall t ensures ScanTo(scores, t, k).arm == ScanTo(scores, t, k - 1).arm {
      assert scores[held] <= scores[ScanTo(scores, t, k - 1).arm];
    }
  }

  lemma FairProduct(w: nat, b: nat, total: nat)
    requires b > 0 && w * (b - 1) == total
    ensures w * (b - 1) * b == total * b
  {}

  /** The counts on a tie, in terms of the counts before it. */
  lemma FairTie(scores: seq<real>, k: nat, arm: nat)
    requires 1 < k <= |scores| && IsBest(scores, k, k - 1) && |BestArms(scores, k)| > 1
    ensures |Tapes(Bounds(scores, k))| == |Tapes(Bounds(scores, k - 1))| * |BestArms(scores, k)|
    ensures |Winning(scores, k, arm)| ==
      if arm == k - 1 then |Tapes(Bounds(scores, k - 1))|
      else |Winning(scores, k - 1, arm)| * (|BestArms(scores, k)| - 1)
  {
    var b := |BestArms(scores, k)|;
    TieTapes(scores, k);
    TieStep(scores, k, arm);
    ExtendCount(Tapes(Bounds(scores, k - 1)), 0, b, b);
    ExtendCount(Tapes(Bounds(scores, k - 1)), 0, 1, 1);
    ExtendCount(Winning(scores, k - 1, arm), 1, b, b - 1);
  }

  /** Every tape of a full scan is legal draw by draw, and there is at least one. */
  lemma TapesExist(scores: seq<real>, k: nat)
    requires 0 < k <= |scores|
    ensures Tapes(Bounds(scores, k)) != {}
  {
    var t: seq<nat> := seq(|Bounds(scores, k)|, _ => 0);
    BoundsPositive(scores, k);
    TapesAre(Bounds(scores, k), t);
  }

  lemma BoundsPositive(scores: seq<real>, k: nat)
    requires 0 < k <= |scores|
    ensures forall i :: 0 <= i < |Bounds(scores, k)| ==> Bounds(scores, k)[i] > 1
  {}

  // ---- the selection loops ----

  datatype Extended = NegativeInfinity | Finite(value: real)

  predicate Exceeds(score: real, best: Extended) {
    best.NegativeInfinity? || score > best.value
  }

  /** `select_deterministic`: starts below every score and keeps the first strict maximum. */
  method SelectDeterministic(scores: seq<real>) returns (bestArm: nat)
    requires scores != []
    ensures IsLowestBest(scores, bestArm) && bestArm == LowestBest(scores)
  {
    bestArm := 0;
    var bestScore := NegativeInfinity;
    for arm := 0 to |scores|
      invariant arm == 0 ==> bestScore.NegativeInfinity?
      invariant arm > 0 ==> IsLowestBest(scores[..arm], bestArm) && bestScore == Finite(scores[bestArm])
    {
      if Exceeds(scores[arm], bestScore) {
        bestScore := Finite(scores[arm]);
        bestArm := arm;
      }
    }
    assert scores[..|scores|] == scores;
    LowestBestUnique(scores, bestArm, LowestBest(scores));
  }

  /** `select`: starts below every score, so the first arm is taken without a draw. */
  method Select(scores: seq<real>, tape: seq<nat>) returns (bestArm: nat, ghost used: nat)
    requires scores != [] && tape in Tapes(Bounds(scores, |scores|))
    ensures bestArm == ScanTo(scores, tape, |scores|).arm && used == |tape|
  {
    bestArm := 0;
    var bestScore := NegativeInfinity;
    var tied, drawn := 0, 0;
    TapesAre(Bounds(scores, |scores|), tape);
    for arm := 0 to |scores|
      invariant arm == 0 ==> bestScore.NegativeInfinity? && drawn == 0
      invariant arm > 0 ==> ScanTo(scores, tape, arm) == Scan(bestArm, tied, drawn) && bestScore == Finite(scores[bestArm])
    {
      if Exceeds(scores[arm], bestScore) {
        bestScore := Finite(scores[arm]);
        bestArm := arm;
        tied := 1;
      } else if Finite(scores[arm]) == bestScore {
        tied := tied + 1;
        DrawLegal(scores, tape, arm + 1);
        if tape[drawn] == 0 {
          bestArm := arm;
        }
        drawn := drawn + 1;
      }
    }
    ScanShape(scores, tape, |scores|);
    used := drawn;
  }

  /** `select_random_tie`: starts from the first score. */
  method SelectRandomTie(scores: seq<real>, tape: seq<nat>) returns (bestArm: nat, ghost used: nat)
    requires scores != [] && tape in Tapes(Bounds(scores, |scores|))
    ensures bestArm == ScanTo(scores, tape, |scores|).arm && used == |tape|
  {
    bestArm := 0;
    var bestScore := scores[0];
    var tied, drawn := 1, 0;
    TapesAre(Bounds(scores, |scores|), tape);
    for arm := 1 to |scores|
      invariant ScanTo(scores, tape, arm) == Scan(bestArm, tied, drawn) && bestScore == scores[bestArm]
    {
      if scores[arm] > bestScore {
        bestScore := scores[arm];
        bestArm := arm;
        tied := 1;
      } else if scores[arm] == bestScore {
        tied := tied + 1;
        DrawLegal(scores, tape, arm + 1);
        if tape[drawn] == 0 {
          bestArm := arm;
        }
        drawn := drawn + 1;
      }
    }
    ScanShape(scores, tape, |scores|);
    used := drawn;
  }

  /** The draw made on the last of `k` scores exists on the tape and is below the number of ties. */
  lemma DrawLegal(scores: seq<real>, tape: seq<nat>, k: nat)
    requires 1 < k <= |scores| && tape in Tapes(Bounds(scores, |scores|))
    requires scores[k - 1] == scores[ScanTo(scores, tape, k - 1).arm]
    ensures var s := ScanTo(scores, tape, k - 1);
      s.used < |tape| && tape[s.used] < s.tied + 1
  {
    var s := ScanTo(scores, tape, k - 1);
    TapesAre(Bounds(scores, |scores|), tape);
    ScanShape(scores, tape, k - 1);
    TiedBound(scores, k, s.arm);
    BoundsPrefix(scores, k, |scores|);
    assert Bounds(scores, k)[s.used] == s.tied + 1;
  }

  lemma TiedBound(scores: seq<real>, k: nat, held: nat)
    requires 1 < k <= |scores| && IsBest(scores, k - 1, held) && scores[k - 1] == scores[held]
    ensures Bounds(scores, k) == Bounds(scores, k - 1) + [|BestArms(scores, k - 1)| + 1]
  {
    BestArmsStep(scores, k, held);
    assert held in BestArms(scores, k - 1);
  }

  lemma {:induction false} BoundsPrefix(scores: seq<real>, k: nat, m: nat)
    requires 0 < k <= m <= |scores|
    ensures Bounds(scores, k) <= Bounds(scores, m)
  {
    if k == m {
    } else {
      BoundsPrefix(scores, k, m - 1);
    }
  }
}
