/** Emptying several lines of frames one head at a time. */
module CanTxMerge {
  import opened Common
  import opened CanTypes
  import opened CanArbitration

  type Lines = seq<seq<Frame>>

  /** A frame taken from the head of line k. */
  datatype Pick = Pick(k: nat, frame: Frame)

  function Rank(f: Frame): nat { CheckId(f) }

  predicate Takes(a: Lines, b: Lines, p: Pick) {
    p.k < |a| && a[p.k] != [] && p.frame == a[p.k][0] && b == a[p.k := a[p.k][1..]]
  }

  predicate LeastHead(a: Lines, p: Pick) {
    forall k :: 0 <= k < |a| && a[k] != [] ==> Rank(p.frame) <= Rank(a[k][0])
  }

  /** The line from k on whose head goes first: least rank, and the lowest line on a tie. */
  function Best(a: Lines, k: nat): (r: Option<nat>)
    requires k <= |a|
    ensures r.Some? ==> k <= r.value < |a| && a[r.value] != []
    decreases |a| - k
  {
    if k == |a| then None
    else
      var r := Best(a, k + 1);
      if a[k] != [] && (r.None? || Rank(a[k][0]) <= Rank(a[r.value][0])) then Some(k) else r
  }

  lemma {:induction false} BestIsFirst(a: Lines, k: nat)
    requires k <= |a|
    ensures Best(a, k).None? ==> forall o :: k <= o < |a| ==> a[o] == []
    ensures Best(a, k).Some? ==>
              var w := Best(a, k).value;
              forall o :: k <= o < |a| && a[o] != [] && o != w ==>
                Rank(a[w][0]) < Rank(a[o][0]) || (Rank(a[w][0]) == Rank(a[o][0]) && w < o)
    decreases |a| - k
  {
    if k < |a| {
      BestIsFirst(a, k + 1);
    }
  }

  function Total(lines: Lines): nat {
    if lines == [] then 0 else |lines[0]| + Total(lines[1..])
  }

  /** The frames of one line in a sequence of picks. */
  function Of(out: seq<Pick>, k: nat): seq<Frame> {
    if out == [] then [] else (if out[0].k == k then [out[0].frame] else []) + Of(out[1..], k)
  }

  /** The picks empty the lines: line by line they are exactly what the lines held, in order. */
  predicate Empties(a: Lines, out: seq<Pick>) {
    && |out| == Total(a)
    && (forall k :: 0 <= k < |a| ==> Of(out, k) == a[k])
    && (forall i :: 0 <= i < |out| ==> out[i].k < |a|)
  }

  lemma {:induction false} TotalTakes(a: Lines, b: Lines, p: Pick)
    requires Takes(a, b, p)
    ensures Total(a) == Total(b) + 1
  {
    if p.k == 0 {
      assert b[1..] == a[1..];
    } else {
      assert b[1..] == a[1..][p.k - 1 := a[p.k][1..]];
      TotalTakes(a[1..], b[1..], Pick(p.k - 1, p.frame));
    }
  }

  lemma {:induction false} TotalZero(a: Lines)
    ensures Total(a) == 0 <==> forall k :: 0 <= k < |a| ==> a[k] == []
  {
    if a != [] {
      TotalZero(a[1..]);
      assert forall k :: 0 < k < |a| ==> a[k] == a[1..][k - 1];
    }
  }

  lemma EmptiesStep(a: Lines, b: Lines, p: Pick, out: seq<Pick>)
    requires Takes(a, b, p) && Empties(b, out)
    ensures Empties(a, [p] + out)
  {
    TotalTakes(a, b, p);
    var all := [p] + out;
    assert all[1..] == out;
    forall k | 0 <= k < |a| ensures Of(all, k) == a[k] {
      assert Of(out, k) == b[k];
    }
  }

  // ---------- order ----------

  predicate Sorted(fs: seq<Frame>) {
    forall i, j :: 0 <= i < j < |fs| ==> Rank(fs[i]) <= Rank(fs[j])
  }

  predicate SortedPicks(out: seq<Pick>) {
    forall i, j :: 0 <= i < j < |out| ==> Rank(out[i].frame) <= Rank(out[j].frame)
  }

  predicate SortedLines(a: Lines) {
    forall k :: 0 <= k < |a| ==> Sorted(a[k])
  }

  lemma {:induction false} Picked(out: seq<Pick>, i: nat)
    requires i < |out|
    ensures out[i].frame in Of(out, out[i].k)
    decreases i
  {
    if i > 0 {
      Picked(out[1..], i - 1);
    }
  }

  lemma {:induction false} PickOf(out: seq<Pick>, k: nat, f: Frame) returns (i: nat)
    requires f in Of(out, k)
    ensures i < |out| && out[i].frame == f
  {
    if out[0].k == k && out[0].frame == f {
      i := 0;
    } else {
      i := PickOf(out[1..], k, f);
      i := i + 1;
    }
  }

  lemma {:induction false} SortedOf(out: seq<Pick>, k: nat)
    requires SortedPicks(out)
    ensures Sorted(Of(out, k))
  {
    if out != [] {
      SortedOf(out[1..], k);
      var r := Of(out[1..], k);
      forall i | 0 <= i < |r| ensures Rank(out[0].frame) <= Rank(r[i]) {
        var j := PickOf(out[1..], k, r[i]);
      }
    }
  }

  /** Everything that still waits ranks behind a least head. */
  lemma HeadRanksFirst(a: Lines, b: Lines, p: Pick, k: nat, f: Frame)
    requires Takes(a, b, p) && LeastHead(a, p) && SortedLines(a) && k < |b| && f in b[k]
    ensures Rank(p.frame) <= Rank(f)
  {
    var line := a[k];
    var j :| 0 <= j < |line| && line[j] == f;
    assert Rank(line[0]) <= Rank(line[j]);
  }

  lemma SortedBehind(p: Pick, out: seq<Pick>)
    requires SortedPicks(out) && forall i :: 0 <= i < |out| ==> Rank(p.frame) <= Rank(out[i].frame)
    ensures SortedPicks([p] + out)
  {}

  /** Taking a least head in front of a sorted rest. */
  lemma SortedStep(a: Lines, b: Lines, p: Pick, out: seq<Pick>)
    requires Takes(a, b, p) && LeastHead(a, p) && SortedLines(a)
    requires Empties(b, out) && SortedPicks(out)
    ensures SortedLines(b) && SortedPicks([p] + out)
  {
    forall i | 0 <= i < |out| ensures Rank(p.frame) <= Rank(out[i].frame) {
      Picked(out, i);
      HeadRanksFirst(a, b, p, out[i].k, out[i].frame);
    }
    SortedBehind(p, out);
    TakesKeepsSorted(a, b, p);
  }

  // ---------- chains of rounds ----------

  /** The lines and the picks made so far. */
  datatype Snapshot = Snapshot(lines: Lines, out: seq<Pick>)

  /** One round takes a least head, or changes nothing when there is none. */
  ghost predicate Linked(x: Snapshot, y: Snapshot) {
    if Total(x.lines) == 0 then y == x
    else exists p :: y.out == x.out + [p] && Takes(x.lines, y.lines, p) && LeastHead(x.lines, p)
  }

  ghost predicate Chain(xs: seq<Snapshot>) {
    xs != [] && forall i :: 0 <= i < |xs| - 1 ==> Linked(xs[i], xs[i + 1])
  }

  /** Everything has left the lines, exactly once and line by line in order; and in order of rank overall
      if each line was in that order. */
  predicate Finished(x: Snapshot, y: Snapshot) {
    && Total(y.lines) == 0
    && x.out <= y.out && Empties(x.lines, y.out[|x.out|..])
    && (SortedLines(x.lines) ==> SortedPicks(y.out[|x.out|..]))
  }

  lemma TailStep(x: seq<Pick>, p: Pick, z: seq<Pick>)
    requires x + [p] <= z
    ensures x <= z && z[|x|..] == [p] + z[|x| + 1..]
  {
    assert z[|x|] == (x + [p])[|x|];
  }

  lemma TakesKeepsSorted(a: Lines, b: Lines, p: Pick)
    requires Takes(a, b, p) && SortedLines(a)
    ensures SortedLines(b)
  {}

  lemma FinishedStep(x: Snapshot, y: Snapshot, z: Snapshot, p: Pick)
    requires y.out == x.out + [p] && Takes(x.lines, y.lines, p) && LeastHead(x.lines, p)
    requires Finished(y, z)
    ensures Finished(x, z)
  {
    TailStep(x.out, p, z.out);
    EmptiesStep(x.lines, y.lines, p, z.out[|y.out|..]);
    if SortedLines(x.lines) {
      TakesKeepsSorted(x.lines, y.lines, p);
      SortedStep(x.lines, y.lines, p, z.out[|y.out|..]);
    }
  }

  lemma ChainCons(x: Snapshot, ys: seq<Snapshot>)
    requires Chain(ys) && Linked(x, ys[0])
    ensures Chain([x] + ys)
  {
    var xs := [x] + ys;
    forall i | 0 <= i < |xs| - 1 ensures Linked(xs[i], xs[i + 1]) {
      if i > 0 {
        assert xs[i] == ys[i - 1] && xs[i + 1] == ys[i];
      }
    }
  }

  lemma {:induction false} ChainFinishes(xs: seq<Snapshot>)
    requires Chain(xs) && Total(xs[0].lines) < |xs|
    ensures Finished(xs[0], xs[|xs| - 1])
    decreases |xs|
  {
    var x := xs[0];
    if Total(x.lines) == 0 {
      TotalZero(x.lines);
      if |xs| > 1 {
        assert xs[1] == x;
        ChainFinishes(xs[1..]);
      } else {
        assert x.out[|x.out|..] == [];
      }
    } else {
      var y := xs[1];
      var p :| y.out == x.out + [p] && Takes(x.lines, y.lines, p) && LeastHead(x.lines, p);
      TotalTakes(x.lines, y.lines, p);
      ChainFinishes(xs[1..]);
      FinishedStep(x, y, xs[|xs| - 1], p);
    }
  }

  /** The overall order is that of rank if and only if every line was in that order. */
  lemma OrderExactly(x: Snapshot, y: Snapshot)
    requires Finished(x, y)
    ensures SortedPicks(y.out[|x.out|..]) <==> SortedLines(x.lines)
  {
    var out := y.out[|x.out|..];
    if SortedPicks(out) {
      forall k | 0 <= k < |x.lines| ensures Sorted(x.lines[k]) {
        SortedOf(out, k);
      }
    }
  }
}
