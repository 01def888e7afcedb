/**
 * Cutting each stored hit's region out of its contig and orienting it
 * (metagenome-analysis/fasta_pull_subseq_batch2.rb, lines 58-84).
 */
module Extraction {
  import opened Wrappers
  import opened HitMerge
  import Decimal

  /** The run stops at a stored hit whose subject has no contig. */
  datatype Error = MissingContig(subject: string)

  /** One output record: the header name and the sequence. */
  datatype Record = Record(name: string, value: string)

  /** The ascending ends of a stored hit (lines 59-65). */
  function Lo(h: Hit): int { if h.sStart < h.sEnd then h.sStart else h.sEnd }
  function Hi(h: Hit): int { if h.sStart < h.sEnd then h.sEnd else h.sStart }

  lemma AscendingEnds(h: Hit)
    ensures Lo(h) == Min(h.sStart, h.sEnd) && Hi(h) == Max(h.sStart, h.sEnd) && Lo(h) <= Hi(h)
  {
  }

  /**
   * Positions `start..stop` of `contig`, 1-based and inclusive, clipped to
   * the contig. Reference definition for the index loop of lines 67-72.
   */
  function Slice(contig: string, start: int, stop: int): (r: string)
    ensures var lo, hi := Max(start - 1, 0), Min(stop, |contig|);
              |r| == Max(hi - lo, 0) &&
              forall k :: 0 <= k < |r| ==> r[k] == contig[lo + k]
    ensures 1 <= start <= stop <= |contig| ==>
              |r| == stop - start + 1 && forall k :: 0 <= k < |r| ==> r[k] == contig[start - 1 + k]
  {
    var lo, hi := Max(start - 1, 0), Min(stop, |contig|);
    if lo < hi then contig[lo..hi] else ""
  }

  /** Lines 67-72: keep the character at 0-based index `i` when `start - 2 < i < stop`. */
  method CopyRange(temp: string, start: int, stop: int) returns (outseq: string)
    ensures outseq == Slice(temp, start, stop)
  {
    outseq := "";
    var i := 0;
    while i < |temp|
      invariant 0 <= i <= |temp|
      invariant outseq == Slice(temp[..i], start, stop)
    {
      if i > start - 2 && i < stop {
        outseq := outseq + [temp[i]];
      }
      i := i + 1;
    }
    assert temp[..i] == temp;
  }

  /** Watson-Crick pairing of a nucleotide letter, either case; any other character stays. */
  function Complement(c: char): char
  {
    match c
    case 'A' => 'T' case 'T' => 'A' case 'C' => 'G' case 'G' => 'C'
    case 'a' => 't' case 't' => 'a' case 'c' => 'g' case 'g' => 'c'
    case _ => c
  }

  lemma ComplementInvolution(c: char)
    ensures Complement(Complement(c)) == c
  {
  }

  /** The sequence read backwards with every letter complemented. */
  function ReverseComplement(s: string): (r: string)
    ensures |r| == |s|
    ensures forall k :: 0 <= k < |s| ==> r[k] == Complement(s[|s| - 1 - k])
    decreases |s|
  {
    if s == [] then [] else [Complement(s[|s| - 1])] + ReverseComplement(s[..|s| - 1])
  }

  lemma ReverseComplementInvolution(s: string)
    ensures ReverseComplement(ReverseComplement(s)) == s
  {
  }

  /** Line 76: `query:outname_subject_start-stop`, with the ascending ends. */
  function Header(query: string, outname: string, subject: string, start: int, stop: int): string
  {
    query + ":" + outname + "_" + subject + "_" + Decimal.IntText(start) + "-" + Decimal.IntText(stop)
  }

  /** The sequence written for one stored hit whose contig is `contig` (lines 66-81). */
  function Oriented(h: Hit, contig: string): string
  {
    var cut := Slice(contig, Lo(h), Hi(h));
    if h.sStart > h.sEnd then ReverseComplement(cut) else cut
  }

  /** The record written for one stored hit whose contig is `contig` (lines 59-81). */
  function RecordOf(h: Hit, contig: string, outname: string): Record
  {
    Record(Header(h.query, outname, h.sbjct, Lo(h), Hi(h)), Oriented(h, contig))
  }

  /** Only a stored hit with `sStart > sEnd` is reverse-complemented; equal ends are not. */
  lemma ReversedIff(h: Hit, contig: string)
    ensures h.sStart > h.sEnd ==> ReverseComplement(Oriented(h, contig)) == Slice(contig, Lo(h), Hi(h))
    ensures h.sStart <= h.sEnd ==> Oriented(h, contig) == Slice(contig, Lo(h), Hi(h))
    ensures h.sStart == h.sEnd ==> Oriented(h, contig) == Slice(contig, h.sStart, h.sStart)
  {
    if h.sStart > h.sEnd {
      ReverseComplementInvolution(Slice(contig, Lo(h), Hi(h)));
    }
  }

  /**
   * Read against the contig, a record inside the contig is the region read
   * forwards, or read backwards and complemented for a reverse hit.
   */
  lemma RecordWithinContig(h: Hit, contig: string)
    requires 1 <= Lo(h) && Hi(h) <= |contig|
    ensures |Oriented(h, contig)| == Hi(h) - Lo(h) + 1
    ensures h.sStart <= h.sEnd ==>
              forall k :: 0 <= k < Hi(h) - Lo(h) + 1 ==> Oriented(h, contig)[k] == contig[Lo(h) - 1 + k]
    ensures h.sStart > h.sEnd ==>
              forall k :: 0 <= k < Hi(h) - Lo(h) + 1 ==> Oriented(h, contig)[k] == Complement(contig[Hi(h) - 1 - k])
  {
  }

  /** Lines 59-81 for one stored hit; a missing contig is the error of line 66. */
  method ExtractRecord(h: Hit, contigs: map<string, string>, outname: string) returns (r: Result<Record, Error>)
    ensures r.Failure? <==> h.sbjct !in contigs
    ensures r.Failure? ==> r.error == MissingContig(h.sbjct)
    ensures r.Success? ==> r.value == RecordOf(h, contigs[h.sbjct], outname)
  {
    var start, stop;
    if h.sStart < h.sEnd {
      start, stop := h.sStart, h.sEnd;
    } else {
      start, stop := h.sEnd, h.sStart;
    }
    if h.sbjct !in contigs {
      return Failure(MissingContig(h.sbjct));
    }
    var temp := contigs[h.sbjct];
    var outseq := CopyRange(temp, start, stop);
    var name := Header(h.query, outname, h.sbjct, start, stop);
    var value := outseq;
    if h.sStart > h.sEnd {
      value := ReverseComplement(value);
    }
    r := Success(Record(name, value));
  }

  /** Every stored hit's subject has a contig. */
  predicate AllContigsPresent(coord: map<string, Hit>, contigs: map<string, string>)
  {
    forall k :: k in coord ==> coord[k].sbjct in contigs
  }

  /**
   * Lines 58-84: one record per stored query, or the error for a stored hit
   * whose contig is missing. The records are keyed by query, since the order
   * in which the hash is walked is not part of the model.
   */
  method ExtractAll(coord: map<string, Hit>, contigs: map<string, string>, outname: string)
    returns (r: Result<map<string, Record>, Error>)
    ensures r.Success? <==> AllContigsPresent(coord, contigs)
    ensures r.Failure? ==> exists k :: k in coord && coord[k].sbjct !in contigs && r.error == MissingContig(coord[k].sbjct)
    ensures r.Success? ==> r.value.Keys == coord.Keys
    ensures r.Success? ==> forall k :: k in coord ==> r.value[k] == RecordOf(coord[k], contigs[coord[k].sbjct], outname)
  {
    var out: map<string, Record> := map[];
    var todo := coord.Keys;
    while todo != {}
      invariant todo <= coord.Keys
      invariant out.Keys == coord.Keys - todo
      invariant forall k :: k in out ==> coord[k].sbjct in contigs && out[k] == RecordOf(coord[k], contigs[coord[k].sbjct], outname)
      decreases todo
    {
      var key :| key in todo;
      var rec := ExtractRecord(coord[key], contigs, outname);
      if rec.Failure? {
        return Failure(rec.error);
      }
      out := out[key := rec.value];
      todo := todo - {key};
    }
    r := Success(out);
  }

  /** The worked examples: [3, 7] reads GTACG forwards, [7, 3] reads CGTAC. */
  lemma SliceExamples()
    ensures Slice("ACGTACGTAC", 3, 7) == "GTACG"
    ensures RecordOf(Hit("q", "c1", 99.0, 7, 3), "ACGTACGTAC", "out").value == "CGTAC"
    ensures RecordOf(Hit("q1", "c1", 98.0, 2, 9), "ACGTACGTAC", "out") == Record("q1:out_c1_2-9", "CGTACGTA")
  {
    assert "ACGTACGTAC"[2..7] == "GTACG";
    assert "ACGTACGTAC"[1..9] == "CGTACGTA";
    assert ReverseComplement("GTACG") == "CGTAC" by {
      assert ReverseComplement("") == "";
      assert ReverseComplement("G") == "C";
      assert ReverseComplement("GT") == "AC";
      assert ReverseComplement("GTA") == "TAC";
      assert ReverseComplement("GTAC") == "GTAC";
    }
  }

  /** A stored hit on an unknown contig stops the run. */
  lemma MissingContigStops()
    ensures !AllContigsPresent(map["q" := Hit("q", "c2", 99.0, 1, 4)], map["c1" := "ACGT"])
  {
    var coord := map["q" := Hit("q", "c2", 99.0, 1, 4)];
    assert "q" in coord && coord["q"].sbjct == "c2";
    assert "c2" != "c1";
  }
}
