/**
 * The loss taxonomy of one lane of captured turns: segments, dips classed by
 * evidence, and a one-pass classification of the dips that have none.
 */
module GptLanes {
  import opened Wrappers

  datatype Turn = Turn(input: nat, cached: nat)

  datatype Loss = ColdStart | StructuralReset | ServerTransient | PersistentDip | ClientChurn | Unresolved

  /** Comparing two consecutive captured requests byte by byte may settle who caused a dip. */
  type Evidence = (nat, nat) -> Option<Loss>

  datatype Thresholds = Thresholds(resetCollapse: real, dipRatio: real)

  /** What the first pass knows of a turn. */
  datatype Mark = Mark(opens: bool, dip: bool, loss: Option<Loss>, segment: nat)

  // ----- first pass ---------------------------------------------------------

  predicate Collapses(prev: Turn, cur: Turn, t: Thresholds) {
    cur.input as real < prev.input as real * t.resetCollapse
  }

  predicate IsLow(cur: Turn, t: Thresholds) {
    (if cur.input > 0 then cur.cached as real / cur.input as real else 0.0) < t.dipRatio
  }

  predicate Opens(turns: seq<Turn>, t: Thresholds, i: nat)
    requires i < |turns|
  {
    i == 0 || Collapses(turns[i - 1], turns[i], t)
  }

  predicate IsDip(turns: seq<Turn>, t: Thresholds, i: nat)
    requires i < |turns|
  {
    !Opens(turns, t, i) && IsLow(turns[i], t)
  }

  function FirstLoss(turns: seq<Turn>, t: Thresholds, evidence: Evidence, i: nat): Option<Loss>
    requires i < |turns|
  {
    if i == 0 then (if turns[0].cached == 0 then Some(ColdStart) else None)
    else if Opens(turns, t, i) then Some(StructuralReset)
    else if IsDip(turns, t, i) then evidence(i - 1, i)
    else None
  }

  function OpeningsUpTo(turns: seq<Turn>, t: Thresholds, n: nat): nat
    requires n <= |turns|
  {
    if n == 0 then 0 else OpeningsUpTo(turns, t, n - 1) + if Opens(turns, t, n - 1) then 1 else 0
  }

  predicate Marked(m: Mark, turns: seq<Turn>, t: Thresholds, evidence: Evidence, i: nat)
    requires i < |turns|
  {
    && m.opens == Opens(turns, t, i) && m.dip == IsDip(turns, t, i)
    && m.loss == FirstLoss(turns, t, evidence, i)
    && m.segment == OpeningsUpTo(turns, t, i + 1) - 1
  }

  method MarkTurns(turns: seq<Turn>, t: Thresholds, evidence: Evidence) returns (marks: seq<Mark>, segments: nat)
    ensures |marks| == |turns|
    ensures forall i :: 0 <= i < |turns| ==> Marked(marks[i], turns, t, evidence, i)
    ensures segments == OpeningsUpTo(turns, t, |turns|)
  {
    marks, segments := [], 0;
    var seg := 0;
    var i := 0;
    while i < |turns|
      invariant 0 <= i <= |turns| && |marks| == i
      invariant forall j :: 0 <= j < i ==> Marked(marks[j], turns, t, evidence, j)
      invariant segments == OpeningsUpTo(turns, t, i)
      invariant seg == if i == 0 then 0 else segments - 1
    {
      var c := turns[i];
      var opens, loss := false, None;
      if i == 0 {
        segments := segments + 1;
        opens := true;
        if c.cached == 0 {
          loss := Some(ColdStart);
        }
      } else if Collapses(turns[i - 1], c, t) {
        seg := seg + 1;
        segments := segments + 1;
        opens := true;
        loss := Some(StructuralReset);
      }
      var dip := !opens && IsLow(c, t);
      if dip && i > 0 {
        loss := evidence(i - 1, i);
      }
      marks := marks + [Mark(opens, dip, loss, seg)];
      i := i + 1;
    }
  }

  // ----- runs of dips without evidence --------------------------------------

  predicate Pending(marks: seq<Mark>, i: int)
    requires 0 <= i < |marks|
  {
    marks[i].dip && marks[i].loss.None?
  }

  /** The turns from `s` up to `e` are pending, and neither neighbour is. */
  predicate IsRun(marks: seq<Mark>, s: nat, e: nat) {
    && s < e <= |marks|
    && (forall i :: s <= i < e ==> Pending(marks, i))
    && (s == 0 || !Pending(marks, s - 1))
    && (e == |marks| || !Pending(marks, e))
  }

  /** A healthy turn that does not open a segment. */
  predicate Recovers(marks: seq<Mark>, e: nat) {
    e < |marks| && !marks[e].opens && !marks[e].dip
  }

  function RunClass(marks: seq<Mark>, s: nat, e: nat): Loss
    requires s < e
  {
    if e - s >= 2 then PersistentDip
    else if Recovers(marks, e) then ServerTransient
    else Unresolved
  }

  /** Every turn before `n` has its final class. */
  ghost predicate Settled(marks: seq<Mark>, losses: seq<Option<Loss>>, n: nat)
    requires |losses| == |marks| && n <= |marks|
  {
    && (forall i :: 0 <= i < n && !Pending(marks, i) ==> losses[i] == marks[i].loss)
    && (forall s: nat, e: nat, i :: IsRun(marks, s, e) && e <= n && s <= i < e ==>
          losses[i] == Some(RunClass(marks, s, e)))
  }

  /** Every pending turn is in one run, so the runs settle every turn. */
  lemma PendingInRun(marks: seq<Mark>, i: nat) returns (s: nat, e: nat)
    requires i < |marks| && Pending(marks, i)
    ensures IsRun(marks, s, e) && s <= i < e
  {
    s, e := i, i + 1;
    while s > 0 && Pending(marks, s - 1)
      invariant 0 <= s <= i
      invariant forall j :: s <= j <= i ==> Pending(marks, j)
    {
      s := s - 1;
    }
    while e < |marks| && Pending(marks, e)
      invariant i < e <= |marks|
      invariant forall j :: s <= j < e ==> Pending(marks, j)
    {
      e := e + 1;
    }
  }

  lemma RunsAreDisjoint(marks: seq<Mark>, s: nat, e: nat, s': nat, e': nat, i: nat)
    requires IsRun(marks, s, e) && IsRun(marks, s', e') && s <= i < e && s' <= i < e'
    ensures s == s' && e == e'
  {
  }

  /** What a run is, told by the two neighbours of each of its turns. */
  lemma RunClassByNeighbours(marks: seq<Mark>, s: nat, e: nat, i: nat)
    requires IsRun(marks, s, e) && s <= i < e
    ensures RunClass(marks, s, e) ==
      if (i > 0 && Pending(marks, i - 1)) || (i + 1 < |marks| && Pending(marks, i + 1)) then PersistentDip
      else if Recovers(marks, i + 1) then ServerTransient
      else Unresolved
  {
    if e - s == 1 {
      assert s == i && e == i + 1;
    } else if i > s {
      assert Pending(marks, i - 1);
    } else {
      assert Pending(marks, i + 1);
    }
  }

  /** Settling the run that ends at `e`, or no run at all, settles everything up to and including `e`. */
  lemma SettleRun(marks: seq<Mark>, before: seq<Option<Loss>>, after: seq<Option<Loss>>, s: nat, e: nat)
    requires |before| == |after| == |marks| && s <= e <= |marks|
    requires Settled(marks, before, s) && (s < e ==> IsRun(marks, s, e))
    requires s == e && e > 0 && s < |marks| ==> !Pending(marks, s)
    requires forall i :: 0 <= i < |marks| ==> after[i] == if s <= i < e then Some(RunClass(marks, s, e)) else before[i]
    requires e < |marks| ==> !Pending(marks, e) && before[e] == marks[e].loss
    ensures Settled(marks, after, if e < |marks| then e + 1 else e)
  {
    var n := if e < |marks| then e + 1 else e;
    forall s': nat, e': nat, i | IsRun(marks, s', e') && e' <= n && s' <= i < e'
      ensures after[i] == Some(RunClass(marks, s', e'))
    {
      if e' > s {
        if s < e {
          assert s <= e' - 1 < e;
          RunsAreDisjoint(marks, s, e, s', e', e' - 1);
        }
      }
    }
  }

  /** The second pass: one walk with the list of the pending turns seen last. */
  method ClassifyDips(marks: seq<Mark>, losses: array<Option<Loss>>)
    requires losses.Length == |marks|
    requires forall i :: 0 <= i < |marks| ==> losses[i] == marks[i].loss
    modifies losses
    ensures Settled(marks, losses[..], |marks|)
  {
    var run: seq<nat> := [];
    var i := 0;
    while i <= |marks|
      invariant 0 <= i <= |marks| + 1
      invariant |run| <= i && (i == |marks| + 1 ==> run == [])
      invariant i <= |marks| ==> forall k :: 0 <= k < |run| ==> run[k] == i - |run| + k
      invariant i <= |marks| ==> forall j :: i - |run| <= j < i ==> Pending(marks, j)
      invariant i <= |marks| ==> i - |run| == 0 || !Pending(marks, i - |run| - 1)
      invariant forall j :: Min(i, |marks|) <= j < |marks| ==> losses[j] == marks[j].loss
      invariant Settled(marks, losses[..], if i <= |marks| then i - |run| else |marks|)
    {
      if i < |marks| && marks[i].dip && losses[i].None? {
        run := run + [i];
        i := i + 1;
      } else {
        ghost var before, s := losses[..], i - |run|;
        var cls := if |run| >= 2 then PersistentDip else if Recovers(marks, i) then ServerTransient else Unresolved;
        Assign(losses, run, cls, s, i);
        SettleRun(marks, before, losses[..], s, i);
        run := [];
        i := i + 1;
      }
    }
  }

  /** Give every turn of the run the class. */
  method Assign(losses: array<Option<Loss>>, run: seq<nat>, cls: Loss, ghost s: nat, ghost e: nat)
    requires s <= e <= losses.Length && |run| == e - s
    requires forall k :: 0 <= k < |run| ==> run[k] == s + k
    modifies losses
    ensures forall i :: 0 <= i < losses.Length ==> losses[i] == if s <= i < e then Some(cls) else old(losses[i])
  {
    var k := 0;
    while k < |run|
      invariant 0 <= k <= |run|
      invariant forall i :: 0 <= i < losses.Length ==> losses[i] == if s <= i < s + k then Some(cls) else old(losses[i])
    {
      losses[run[k]] := Some(cls);
      k := k + 1;
    }
  }

  // ----- the totals ---------------------------------------------------------

  function CountOf(losses: seq<Option<Loss>>, c: Loss, n: nat): nat
    requires n <= |losses|
  {
    if n == 0 then 0 else CountOf(losses, c, n - 1) + if losses[n - 1] == Some(c) then 1 else 0
  }

  function Classed(losses: seq<Option<Loss>>, n: nat): nat
    requires n <= |losses|
  {
    if n == 0 then 0 else Classed(losses, n - 1) + if losses[n - 1].Some? then 1 else 0
  }

  const CLASSES: set<Loss> := {ColdStart, StructuralReset, ServerTransient, PersistentDip, ClientChurn, Unresolved}

  method CountLosses(losses: seq<Option<Loss>>) returns (counts: map<Loss, nat>)
    ensures counts.Keys == CLASSES
    ensures forall c :: c in CLASSES ==> counts[c] == CountOf(losses, c, |losses|)
  {
    counts := map c | c in CLASSES :: 0;
    var i := 0;
    while i < |losses|
      invariant 0 <= i <= |losses|
      invariant counts.Keys == CLASSES
      invariant forall c :: c in CLASSES ==> counts[c] == CountOf(losses, c, i)
    {
      if losses[i].Some? {
        var c := losses[i].value;
        assert c in CLASSES by {
          match c {
            case ColdStart =>
            case StructuralReset =>
            case ServerTransient =>
            case PersistentDip =>
            case ClientChurn =>
            case Unresolved =>
          }
        }
        counts := counts[c := counts[c] + 1];
      }
      i := i + 1;
    }
  }

  /** The six counts add up to the number of classed turns. */
  lemma {:induction false} CountsAddUp(losses: seq<Option<Loss>>, n: nat)
    requires n <= |losses|
    ensures CountOf(losses, ColdStart, n) + CountOf(losses, StructuralReset, n) + CountOf(losses, ServerTransient, n)
          + CountOf(losses, PersistentDip, n) + CountOf(losses, ClientChurn, n) + CountOf(losses, Unresolved, n)
          == Classed(losses, n)
  {
    if n > 0 {
      CountsAddUp(losses, n - 1);
      match losses[n - 1] {
        case None =>
        case Some(c) =>
          match c {
            case ColdStart =>
            case StructuralReset =>
            case ServerTransient =>
            case PersistentDip =>
            case ClientChurn =>
            case Unresolved =>
          }
      }
    }
  }

  /** A count is how often the class occurs. */
  lemma {:induction false} CountIsMultiplicity(losses: seq<Option<Loss>>, c: Loss, n: nat)
    requires n <= |losses|
    ensures CountOf(losses, c, n) == multiset(losses[..n])[Some(c)]
  {
    if n > 0 {
      CountIsMultiplicity(losses, c, n - 1);
      assert losses[..n] == losses[..n - 1] + [losses[n - 1]];
    }
  }

  // ----- the class of a turn in numbers -------------------------------------

  /** The prompt fell below a share of the one before. */
  predicate Collapsed(turns: seq<Turn>, t: Thresholds, i: int)
    requires 0 <= i < |turns|
  {
    i > 0 && turns[i].input as real < turns[i - 1].input as real * t.resetCollapse
  }

  /** Less than the asked share of the prompt came from the cache; of an empty prompt, nothing did. */
  predicate ReadsLow(turns: seq<Turn>, t: Thresholds, i: int)
    requires 0 <= i < |turns|
  {
    if turns[i].input == 0 then 0.0 < t.dipRatio
    else turns[i].cached as real < t.dipRatio * turns[i].input as real
  }

  /** A turn that reads low within a segment, with no evidence of who is to blame. */
  predicate Bare(turns: seq<Turn>, t: Thresholds, evidence: Evidence, i: int) {
    && 0 < i < |turns| && !Collapsed(turns, t, i) && ReadsLow(turns, t, i)
    && evidence(i - 1, i).None?
  }

  /** What a turn is classed as: by its numbers, by the evidence, or by its neighbours. */
  function ClassOf(turns: seq<Turn>, t: Thresholds, evidence: Evidence, i: nat): Option<Loss>
    requires i < |turns|
  {
    if i == 0 then (if turns[0].cached == 0 then Some(ColdStart) else None)
    else if Collapsed(turns, t, i) then Some(StructuralReset)
    else if !ReadsLow(turns, t, i) then None
    else if evidence(i - 1, i).Some? then evidence(i - 1, i)
    else if Bare(turns, t, evidence, i - 1) || Bare(turns, t, evidence, i + 1) then Some(PersistentDip)
    else if i + 1 < |turns| && !Collapsed(turns, t, i + 1) && !ReadsLow(turns, t, i + 1) then Some(ServerTransient)
    else Some(Unresolved)
  }

  lemma Quotients(x: real, y: real, r: real)
    requires y > 0.0
    ensures x / y < r <==> x < r * y
  {
    assert x == x / y * y;
  }

  lemma LowIsReadsLow(turns: seq<Turn>, t: Thresholds, i: nat)
    requires i < |turns|
    ensures IsLow(turns[i], t) <==> ReadsLow(turns, t, i)
  {
    if turns[i].input > 0 {
      Quotients(turns[i].cached as real, turns[i].input as real, t.dipRatio);
    }
  }

  /** What the first pass marks, in numbers; a segment is numbered by the collapses up to it. */
  lemma MarkInNumbers(m: Mark, turns: seq<Turn>, t: Thresholds, evidence: Evidence, i: nat)
    requires i < |turns| && Marked(m, turns, t, evidence, i)
    ensures m.opens <==> i == 0 || Collapsed(turns, t, i)
    ensures m.dip <==> i > 0 && !Collapsed(turns, t, i) && ReadsLow(turns, t, i)
    ensures m.dip && m.loss.None? <==> Bare(turns, t, evidence, i)
    ensures m.segment == |set j | 0 < j <= i && Collapsed(turns, t, j)|
  {
    LowIsReadsLow(turns, t, i);
    SegmentCounts(turns, t, i);
  }

  lemma {:induction false} SegmentCounts(turns: seq<Turn>, t: Thresholds, i: nat)
    requires i < |turns|
    ensures OpeningsUpTo(turns, t, i + 1) - 1 == |set j | 0 < j <= i && Collapsed(turns, t, j)|
  {
    var collapses := set j | 0 < j <= i && Collapsed(turns, t, j);
    if i == 0 {
      assert collapses == {};
      assert OpeningsUpTo(turns, t, 0) == 0;
    } else {
      SegmentCounts(turns, t, i - 1);
      assert Opens(turns, t, i) <==> Collapsed(turns, t, i);
      CollapsesStep(turns, t, i);
    }
  }

  lemma CollapsesStep(turns: seq<Turn>, t: Thresholds, i: nat)
    requires 0 < i < |turns|
    ensures |set j | 0 < j <= i && Collapsed(turns, t, j)|
         == |set j | 0 < j <= i - 1 && Collapsed(turns, t, j)| + if Collapsed(turns, t, i) then 1 else 0
  {
    var now, before := set j | 0 < j <= i && Collapsed(turns, t, j), set j | 0 < j <= i - 1 && Collapsed(turns, t, j);
    assert now == if Collapsed(turns, t, i) then before + {i} else before;
  }

  /** The class the passes leave for a turn is the one its numbers, the evidence and its neighbours give. */
  lemma ClassInNumbers(marks: seq<Mark>, losses: seq<Option<Loss>>, turns: seq<Turn>, t: Thresholds,
                       evidence: Evidence, i: nat)
    requires |marks| == |losses| == |turns| && i < |turns| && Settled(marks, losses, |marks|)
    requires forall j :: 0 <= j < |turns| ==> Marked(marks[j], turns, t, evidence, j)
    ensures losses[i] == ClassOf(turns, t, evidence, i)
  {
    forall j | 0 <= j < |turns|
      ensures marks[j].opens <==> j == 0 || Collapsed(turns, t, j)
      ensures marks[j].dip <==> j > 0 && !Collapsed(turns, t, j) && ReadsLow(turns, t, j)
      ensures Pending(marks, j) <==> Bare(turns, t, evidence, j)
    {
      MarkInNumbers(marks[j], turns, t, evidence, j);
    }
    if Pending(marks, i) {
      var s, e := PendingInRun(marks, i);
      RunClassByNeighbours(marks, s, e, i);
    }
  }

  /** The whole classification of one lane. */
  method ClassifyLane(turns: seq<Turn>, t: Thresholds, evidence: Evidence)
    returns (marks: seq<Mark>, losses: array<Option<Loss>>, segments: nat, counts: map<Loss, nat>)
    ensures |marks| == |turns| == losses.Length
    ensures forall i :: 0 <= i < |turns| ==> Marked(marks[i], turns, t, evidence, i)
    ensures Settled(marks, losses[..], |marks|)
    ensures forall i :: 0 <= i < |turns| ==> losses[i] == ClassOf(turns, t, evidence, i)
    ensures segments == OpeningsUpTo(turns, t, |turns|)
    ensures counts.Keys == CLASSES && forall c :: c in CLASSES ==> counts[c] == CountOf(losses[..], c, losses.Length)
  {
    marks, segments := MarkTurns(turns, t, evidence);
    losses := new Option<Loss>[|turns|](i requires 0 <= i < |turns| => marks[i].loss);
    ClassifyDips(marks, losses);
    forall i | 0 <= i < |turns| ensures losses[i] == ClassOf(turns, t, evidence, i) {
      ClassInNumbers(marks, losses[..], turns, t, evidence, i);
    }
    counts := CountLosses(losses[..]);
  }
}
