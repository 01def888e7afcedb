/**
 * The fold of tabular alignment hits into `coord`, one stored hit per query
 * (metagenome-analysis/fasta_pull_subseq_batch2.rb, lines 21-52).
 */
module HitMerge {

  /** One parsed alignment line. `sStart > sEnd` marks a reverse-strand hit. */
  datatype Hit = Hit(query: string, sbjct: string, percent: real, sStart: int, sEnd: int)

  function Min(a: int, b: int): int { if a <= b then a else b }
  function Max(a: int, b: int): int { if a <= b then b else a }

  /** The one identity test of the source: strictly above the cutoff. */
  predicate Passes(h: Hit, cutoff: real) { h.percent > cutoff }

  predicate IsForward(h: Hit) { h.sStart < h.sEnd }

  /**
   * What a passing later hit does to the stored one: a forward hit widens
   * towards the smaller start and the larger end, any other hit towards the
   * larger start and the smaller end. Reference definition for lines 28-43.
   */
  function Widen(stored: Hit, bl: Hit, cutoff: real): (r: Hit)
    ensures r.query == stored.query && r.sbjct == stored.sbjct && r.percent == stored.percent
    ensures !Passes(bl, cutoff) ==> r == stored
    ensures Passes(bl, cutoff) && IsForward(bl) ==>
              r.sStart <= stored.sStart && r.sStart <= bl.sStart &&
              (r.sStart == stored.sStart || r.sStart == bl.sStart) &&
              r.sEnd >= stored.sEnd && r.sEnd >= bl.sEnd &&
              (r.sEnd == stored.sEnd || r.sEnd == bl.sEnd)
    ensures Passes(bl, cutoff) && !IsForward(bl) ==>
              r.sStart >= stored.sStart && r.sStart >= bl.sStart &&
              (r.sStart == stored.sStart || r.sStart == bl.sStart) &&
              r.sEnd <= stored.sEnd && r.sEnd <= bl.sEnd &&
              (r.sEnd == stored.sEnd || r.sEnd == bl.sEnd)
  {
    if !Passes(bl, cutoff) then stored
    else if IsForward(bl) then stored.(sStart := Min(stored.sStart, bl.sStart), sEnd := Max(stored.sEnd, bl.sEnd))
    else stored.(sStart := Max(stored.sStart, bl.sStart), sEnd := Min(stored.sEnd, bl.sEnd))
  }

  /**
   * One line of the fold. The subject guard of line 27 is an assignment of
   * the stored subject to the incoming hit, so it never blocks a merge.
   */
  function Step(coord: map<string, Hit>, bl: Hit, cutoff: real): (r: map<string, Hit>)
    ensures !Passes(bl, cutoff) ==> r == coord
    ensures bl.query !in coord ==> (bl.query in r <==> Passes(bl, cutoff))
    ensures bl.query !in coord && Passes(bl, cutoff) ==> r[bl.query] == bl
    ensures bl.query in coord ==>
              (bl.query in r && r[bl.query].query == coord[bl.query].query &&
               r[bl.query].sbjct == coord[bl.query].sbjct && r[bl.query].percent == coord[bl.query].percent)
    ensures bl.query in coord ==> r[bl.query] == Widen(coord[bl.query], bl, cutoff)
    ensures forall k :: k != bl.query ==> (k in r <==> k in coord)
    ensures forall k :: k != bl.query && k in coord ==> r[k] == coord[k]
  {
    if bl.query in coord then coord[bl.query := Widen(coord[bl.query], bl, cutoff)]
    else if Passes(bl, cutoff) then coord[bl.query := bl]
    else coord
  }

  /** The whole fold, line by line in file order. */
  function Aggregate(lines: seq<Hit>, cutoff: real): map<string, Hit>
    decreases |lines|
  {
    if lines == [] then map[]
    else Step(Aggregate(lines[..|lines| - 1], cutoff), lines[|lines| - 1], cutoff)
  }

  /** Lines 21-52: the loop that builds `coord`, updating the stored hit field by field. */
  method AggregateHits(lines: seq<Hit>, cutoff: real) returns (coord: map<string, Hit>)
    ensures coord == Aggregate(lines, cutoff)
  {
    coord := map[];
    var n := 0;
    while n < |lines|
      invariant 0 <= n <= |lines|
      invariant coord == Aggregate(lines[..n], cutoff)
    {
      var bl := lines[n];
      var q := bl.query;
      if q in coord {
        // the guard copies the stored subject onto the incoming hit and is always true
        bl := bl.(sbjct := coord[q].sbjct);
        if bl.percent > cutoff {
          if bl.sStart < bl.sEnd {
            if bl.sStart < coord[q].sStart {
              coord := coord[q := coord[q].(sStart := bl.sStart)];
            }
            if bl.sEnd > coord[q].sEnd {
              coord := coord[q := coord[q].(sEnd := bl.sEnd)];
            }
          } else {
            if bl.sStart > coord[q].sStart {
              coord := coord[q := coord[q].(sStart := bl.sStart)];
            }
            if bl.sEnd < coord[q].sEnd {
              coord := coord[q := coord[q].(sEnd := bl.sEnd)];
            }
          }
        }
      } else {
        if bl.percent > cutoff {
          coord := coord[q := bl];
        }
      }
      assert lines[..n + 1][..n] == lines[..n];
      n := n + 1;
    }
    assert lines[..n] == lines;
  }

  /** Some line of `lines` is a passing hit for `q`. */
  predicate HasPassing(lines: seq<Hit>, q: string, cutoff: real)
  {
    exists i :: 0 <= i < |lines| && lines[i].query == q && Passes(lines[i], cutoff)
  }

  /** A query has an entry exactly when one of its hits passes the cutoff. */
  lemma {:induction false} AggregateKeys(lines: seq<Hit>, cutoff: real, q: string)
    ensures q in Aggregate(lines, cutoff) <==> HasPassing(lines, q, cutoff)
    decreases |lines|
  {
    if lines != [] {
      var init, last := lines[..|lines| - 1], lines[|lines| - 1];
      AggregateKeys(init, cutoff, q);
      assert forall j :: 0 <= j < |init| ==> lines[j] == init[j];
    }
  }

  /** `i` is the first line of `lines` that passes the cutoff for query `q`. */
  predicate IsSeed(lines: seq<Hit>, q: string, cutoff: real, i: int)
  {
    && 0 <= i < |lines| && lines[i].query == q && Passes(lines[i], cutoff)
    && forall j :: 0 <= j < i && lines[j].query == q ==> !Passes(lines[j], cutoff)
  }

  /**
   * The stored entry keeps the query, subject and percent identity of the
   * first passing hit: later hits, whatever their subject, only move the
   * coordinates.
   */
  lemma {:induction false} AggregateSeed(lines: seq<Hit>, cutoff: real, q: string)
    requires q in Aggregate(lines, cutoff)
    ensures exists i :: IsSeed(lines, q, cutoff, i) &&
              Aggregate(lines, cutoff)[q].query == q &&
              Aggregate(lines, cutoff)[q].sbjct == lines[i].sbjct &&
              Aggregate(lines, cutoff)[q].percent == lines[i].percent
    decreases |lines|
  {
    var init, last := lines[..|lines| - 1], lines[|lines| - 1];
    var prev := Aggregate(init, cutoff);
    if q in prev {
      AggregateSeed(init, cutoff, q);
      var i :| IsSeed(init, q, cutoff, i) && prev[q].query == q &&
               prev[q].sbjct == init[i].sbjct && prev[q].percent == init[i].percent;
      assert IsSeed(lines, q, cutoff, i);
    } else {
      AggregateKeys(init, cutoff, q);
      assert forall j :: 0 <= j < |init| ==> lines[j] == init[j];
      assert IsSeed(lines, q, cutoff, |lines| - 1);
    }
  }

  /** The hits of `lines` whose query is `q`, in order. */
  function OnlyQuery(lines: seq<Hit>, q: string): (r: seq<Hit>)
    ensures forall h :: h in r <==> h in lines && h.query == q
    decreases |lines|
  {
    if lines == [] then []
    else OnlyQuery(lines[..|lines| - 1], q) + (if lines[|lines| - 1].query == q then [lines[|lines| - 1]] else [])
  }

  /** The entry of a query depends only on that query's own lines. */
  lemma {:induction false} AggregateSeparates(lines: seq<Hit>, cutoff: real, q: string)
    ensures var a, b := Aggregate(lines, cutoff), Aggregate(OnlyQuery(lines, q), cutoff);
              (q in a <==> q in b) && (q in a ==> a[q] == b[q])
    decreases |lines|
  {
    if lines != [] {
      var init, last := lines[..|lines| - 1], lines[|lines| - 1];
      AggregateSeparates(init, cutoff, q);
      var only := OnlyQuery(init, q);
      if last.query == q {
        assert OnlyQuery(lines, q) == only + [last];
        assert (only + [last])[..|only|] == only;
      } else {
        assert OnlyQuery(lines, q) == only;
      }
    }
  }

  /** Every passing hit for `q` is forward. */
  predicate AllForward(lines: seq<Hit>, q: string, cutoff: real)
  {
    forall i :: 0 <= i < |lines| && lines[i].query == q && Passes(lines[i], cutoff) ==> IsForward(lines[i])
  }

  /** No passing hit for `q` is forward. */
  predicate NoneForward(lines: seq<Hit>, q: string, cutoff: real)
  {
    forall i :: 0 <= i < |lines| && lines[i].query == q && Passes(lines[i], cutoff) ==> !IsForward(lines[i])
  }

  /** Some passing hit for `q` starts at `x`. */
  predicate StartOfPassing(lines: seq<Hit>, q: string, cutoff: real, x: int)
  {
    exists i :: 0 <= i < |lines| && lines[i].query == q && Passes(lines[i], cutoff) && lines[i].sStart == x
  }

  /** Some passing hit for `q` ends at `x`. */
  predicate EndOfPassing(lines: seq<Hit>, q: string, cutoff: real, x: int)
  {
    exists i :: 0 <= i < |lines| && lines[i].query == q && Passes(lines[i], cutoff) && lines[i].sEnd == x
  }

  /** A start or end of a passing hit in a prefix is still one in the longer input. */
  lemma PassingEndsExtend(lines: seq<Hit>, q: string, cutoff: real, x: int)
    requires lines != []
    ensures StartOfPassing(lines[..|lines| - 1], q, cutoff, x) ==> StartOfPassing(lines, q, cutoff, x)
    ensures EndOfPassing(lines[..|lines| - 1], q, cutoff, x) ==> EndOfPassing(lines, q, cutoff, x)
  {
  }

  /**
   * Widening is monotone and tight: when every accepted hit of a query is
   * forward, the stored span stays forward and runs from the least start to
   * the greatest end of those hits.
   */
  lemma {:induction false} ForwardSpanCovers(lines: seq<Hit>, cutoff: real, q: string)
    requires AllForward(lines, q, cutoff)
    requires q in Aggregate(lines, cutoff)
    ensures var e := Aggregate(lines, cutoff)[q];
              e.sStart < e.sEnd &&
              forall i :: 0 <= i < |lines| && lines[i].query == q && Passes(lines[i], cutoff) ==>
                e.sStart <= lines[i].sStart && lines[i].sEnd <= e.sEnd
    ensures var e := Aggregate(lines, cutoff)[q];
              StartOfPassing(lines, q, cutoff, e.sStart) && EndOfPassing(lines, q, cutoff, e.sEnd)
    decreases |lines|
  {
    var init, last := lines[..|lines| - 1], lines[|lines| - 1];
    var prev := Aggregate(init, cutoff);
    var e := Aggregate(lines, cutoff)[q];
    assert forall j :: 0 <= j < |init| ==> lines[j] == init[j];
    assert AllForward(init, q, cutoff);
    if q in prev {
      ForwardSpanCovers(init, cutoff, q);
      PassingEndsExtend(lines, q, cutoff, prev[q].sStart);
      PassingEndsExtend(lines, q, cutoff, prev[q].sEnd);
    } else {
      AggregateKeys(init, cutoff, q);
    }
    if last.query == q && Passes(last, cutoff) {
      assert StartOfPassing(lines, q, cutoff, last.sStart) && EndOfPassing(lines, q, cutoff, last.sEnd) by {
        assert lines[|lines| - 1] == last;
      }
    }
  }

  /**
   * The reverse counterpart: when no accepted hit of a query is forward, the
   * stored span runs from the greatest start to the least end of those hits;
   * if one of them is strictly reverse, the stored span stays reverse
   * (`sStart > sEnd`).
   */
  lemma {:induction false} ReverseSpanCovers(lines: seq<Hit>, cutoff: real, q: string)
    requires NoneForward(lines, q, cutoff)
    requires q in Aggregate(lines, cutoff)
    ensures var e := Aggregate(lines, cutoff)[q];
              forall i :: 0 <= i < |lines| && lines[i].query == q && Passes(lines[i], cutoff) ==>
                e.sStart >= lines[i].sStart && lines[i].sEnd >= e.sEnd
    ensures var e := Aggregate(lines, cutoff)[q];
              (exists i :: 0 <= i < |lines| && lines[i].query == q && Passes(lines[i], cutoff) &&
                 lines[i].sStart > lines[i].sEnd) ==> e.sStart > e.sEnd
    ensures var e := Aggregate(lines, cutoff)[q];
              StartOfPassing(lines, q, cutoff, e.sStart) && EndOfPassing(lines, q, cutoff, e.sEnd)
    decreases |lines|
  {
    var init, last := lines[..|lines| - 1], lines[|lines| - 1];
    var prev := Aggregate(init, cutoff);
    assert forall j :: 0 <= j < |init| ==> lines[j] == init[j];
    assert NoneForward(init, q, cutoff);
    if q in prev {
      ReverseSpanCovers(init, cutoff, q);
      PassingEndsExtend(lines, q, cutoff, prev[q].sStart);
      PassingEndsExtend(lines, q, cutoff, prev[q].sEnd);
    } else {
      AggregateKeys(init, cutoff, q);
    }
    if last.query == q && Passes(last, cutoff) {
      assert StartOfPassing(lines, q, cutoff, last.sStart) && EndOfPassing(lines, q, cutoff, last.sEnd) by {
        assert lines[|lines| - 1] == last;
      }
    }
  }

  /**
   * The merge the guard of line 27 evidently meant: only a hit on the stored
   * subject may widen the stored span.
   */
  function StepGuarded(coord: map<string, Hit>, bl: Hit, cutoff: real): (r: map<string, Hit>)
    ensures bl.query in coord ==> bl.query in r && r[bl.query].sbjct == coord[bl.query].sbjct
    ensures bl.query in coord && r[bl.query] != coord[bl.query] ==>
              Passes(bl, cutoff) && bl.sbjct == coord[bl.query].sbjct
  {
    if bl.query in coord && bl.sbjct != coord[bl.query].sbjct then coord
    else Step(coord, bl, cutoff)
  }

  function AggregateGuarded(lines: seq<Hit>, cutoff: real): map<string, Hit>
    decreases |lines|
  {
    if lines == [] then map[]
    else StepGuarded(AggregateGuarded(lines[..|lines| - 1], cutoff), lines[|lines| - 1], cutoff)
  }

  /** The incoming subject plays no part in the as-written merge. */
  lemma StepIgnoresSubject(coord: map<string, Hit>, bl: Hit, cutoff: real, other: string)
    requires bl.query in coord
    ensures Step(coord, bl, cutoff) == Step(coord, bl.(sbjct := other), cutoff)
  {
  }

  /** A hit on another contig does widen the as-written entry, never the guarded one. */
  lemma CrossSubjectMerge()
    ensures var coord := map["g" := Hit("g", "c1", 99.0, 10, 20)];
            var bl := Hit("g", "c2", 99.0, 5, 30);
            Step(coord, bl, 90.0)["g"] == Hit("g", "c1", 99.0, 5, 30) &&
            StepGuarded(coord, bl, 90.0) == coord
  {
  }

  /** When every hit of a query lies on one subject, the guard makes no difference. */
  lemma {:induction false} GuardIrrelevantOnOneSubject(lines: seq<Hit>, cutoff: real)
    requires forall i, j :: 0 <= i < |lines| && 0 <= j < |lines| && lines[i].query == lines[j].query ==>
               lines[i].sbjct == lines[j].sbjct
    ensures AggregateGuarded(lines, cutoff) == Aggregate(lines, cutoff)
    decreases |lines|
  {
    if lines != [] {
      var init, last := lines[..|lines| - 1], lines[|lines| - 1];
      assert forall j :: 0 <= j < |init| ==> lines[j] == init[j];
      GuardIrrelevantOnOneSubject(init, cutoff);
      var prev := Aggregate(init, cutoff);
      if last.query in prev {
        AggregateSeed(init, cutoff, last.query);
        var i :| IsSeed(init, last.query, cutoff, i) && prev[last.query].sbjct == init[i].sbjct;
        assert lines[i] == init[i];
      }
    }
  }

  /** The worked example: two overlapping forward fragments merge to [2, 9]. */
  lemma TwoFragmentsMerge()
    ensures Aggregate([Hit("q1", "c1", 98.0, 2, 6), Hit("q1", "c1", 99.0, 5, 9)], 90.0)
              == map["q1" := Hit("q1", "c1", 98.0, 2, 9)]
  {
  }

  /** A hit at exactly the cutoff, after any earlier lines, changes nothing: it neither seeds nor widens. */
  lemma CutoffIsStrict(lines: seq<Hit>, h: Hit)
    ensures Aggregate(lines + [h], h.percent) == Aggregate(lines, h.percent)
  {
  }

  /**
   * A passing non-forward hit merged into a forward entry flips it: the
   * seed (10, 20) followed by (30, 25) is stored as (30, 20), which reads
   * ascending as [20, 30] and no longer covers the seed's [10, 20]; the seed
   * (10, 20) followed by (15, 12) is stored as (15, 12), which shrinks the
   * ascending range to [12, 15].
   */
  lemma MixedOrientationFlips()
    ensures Aggregate([Hit("g", "c1", 99.0, 10, 20), Hit("g", "c1", 99.0, 30, 25)], 90.0)
              == map["g" := Hit("g", "c1", 99.0, 30, 20)]
    ensures Aggregate([Hit("g", "c1", 99.0, 10, 20), Hit("g", "c1", 99.0, 15, 12)], 90.0)
              == map["g" := Hit("g", "c1", 99.0, 15, 12)]
  {
  }
}
