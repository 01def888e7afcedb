# Alignment-hit span merging, subsequence extraction and the MLST record

This project models the core of a small metagenome-analysis toolkit:

- `fasta_pull_subseq_batch2.rb` reads tabular alignment hits of query genes
  against assembled contigs. It folds them into one stored hit per query
  (`coord`) and cuts the matched region out of each contig. A region is
  reverse-complemented when its hit lies on the reverse strand.
- `mlst_class.rb` defines `Mlst`, a record of a strain, a list of gene names
  and the sequences found for them.

Modules:

- `HitMerge` (hits.dfy): the hit record and the fold into `coord`. The fold
  is a loop, `AggregateHits`, proved equal to the specification `Aggregate`,
  a left fold of `Step`. The lemmas are about `Aggregate`.
- `Extraction` (extraction.dfy): ascending ends, the 1-based inclusive slice,
  reverse complement, the header name, and one record per stored query. A
  missing contig is an `Error` result.
- `MlstRecord` (mlst.dfy): class `Mlst`, with `sequences` as a sequence of
  `Option<string>` (`None` is the `nil` Ruby pads with).
- `Decimal` (decimal.dfy): the decimal text of a coordinate in a header,
  with its round trip.
- `Wrappers` (wrappers.dfy): `Option` and `Result`.

Behaviour of the script that the model reproduces as written:

- Line 27 reads `if bl.sbjct = coord[...].sbjct`. This is an assignment:
  it copies the stored subject onto the incoming hit, which is then
  dropped. A string is always truthy, so the guard is always true and never
  blocks a merge. The stored entry keeps the subject of its seed hit.
  `HitMerge.StepIgnoresSubject` and `HitMerge.AggregateSeed` state this.
  The equality guard the line evidently meant is modelled beside it as
  `HitMerge.StepGuarded`. `HitMerge.CrossSubjectMerge` shows where the two
  differ. `HitMerge.GuardIrrelevantOnOneSubject` shows they agree when every
  query's hits lie on one contig.
- Lines 36-42 treat every hit that is not forward as reverse, whatever the
  orientation of the stored entry. A passing reverse hit merged into a
  forward entry can therefore flip the entry and move or shrink its ascending
  range. `HitMerge.MixedOrientationFlips` shows the seed (10, 20) followed by
  (30, 25) stored as (30, 20), and followed by (15, 12) stored as (15, 12).
- When a contig is missing, the script has already written the records that
  came before it in hash order. The model returns only the error.

## Model

| member | source | states |
|---|---|---|
| `HitMerge.Widen` | metagenome-analysis/fasta_pull_subseq_batch2.rb:28-43 | below the cutoff the stored hit is unchanged; a passing forward hit moves the start to the smaller and the end to the larger of old and new, a passing non-forward hit the start to the larger and the end to the smaller, each end independently; query, subject and percent never change |
| `HitMerge.Step` | metagenome-analysis/fasta_pull_subseq_batch2.rb:26-50 | a hit not above the cutoff changes nothing; a query without an entry gets one exactly when its hit passes, and the entry is that hit; an existing entry becomes `Widen` of itself and the hit, so it keeps its query, subject and percent and its ends move by the min/max rule; other queries' entries are untouched |
| `HitMerge.AggregateHits` | metagenome-analysis/fasta_pull_subseq_batch2.rb:21-52 | the line-by-line loop, with its field-by-field in-place updates and the always-true subject guard, builds exactly the fold `Aggregate` |
| `HitMerge.AggregateKeys` | metagenome-analysis/fasta_pull_subseq_batch2.rb:26-49 | a query has an entry if and only if at least one of its hits has percent identity strictly above the cutoff; a failing first hit does not block a later passing one |
| `HitMerge.AggregateSeed` | metagenome-analysis/fasta_pull_subseq_batch2.rb:26-49 | the stored entry's query, subject and percent are those of the first passing hit of that query, whatever subjects the later hits have |
| `HitMerge.AggregateSeparates` | metagenome-analysis/fasta_pull_subseq_batch2.rb:26-48 | a query's entry depends only on that query's own lines: folding just those lines gives the same entry |
| `HitMerge.ForwardSpanCovers` | metagenome-analysis/fasta_pull_subseq_batch2.rb:29-35 | when every passing hit of a query is forward, the stored span is forward, contains every passing hit's range, and its start and end are a start and an end of passing hits: it is exactly the least start to the greatest end |
| `HitMerge.ReverseSpanCovers` | metagenome-analysis/fasta_pull_subseq_batch2.rb:36-42 | when no passing hit of a query is forward, the stored span runs exactly from the greatest start to the least end of the passing hits (bounds and both ends attained), and it stays reverse (`start > end`) if any of them is strictly reverse |
| `HitMerge.CutoffIsStrict` | metagenome-analysis/fasta_pull_subseq_batch2.rb:28-49 | after any earlier lines, a hit whose percent identity equals the cutoff leaves the map unchanged: it neither seeds an entry nor widens one |
| `HitMerge.MixedOrientationFlips` | metagenome-analysis/fasta_pull_subseq_batch2.rb:36-42 | a forward seed (10, 20) followed by the passing reverse hit (30, 25) is stored as (30, 20), flipped and no longer covering [10, 20]; followed by (15, 12) it is stored as (15, 12), its ascending range shrunk to [12, 15] |
| `HitMerge.TwoFragmentsMerge` | metagenome-analysis/fasta_pull_subseq_batch2.rb:21-52 | hits (q1, c1, 98, 2, 6) then (q1, c1, 99, 5, 9) at cutoff 90 fold to the single entry (q1, c1, 98, 2, 9) |
| `HitMerge.StepIgnoresSubject` | metagenome-analysis/fasta_pull_subseq_batch2.rb:27 | once a query has an entry, the incoming hit's subject makes no difference to the merge |
| `HitMerge.StepGuarded` | metagenome-analysis/fasta_pull_subseq_batch2.rb:27 | the equality-guarded merge: an existing entry keeps its subject, and it changes only through a passing hit on that same subject |
| `HitMerge.CrossSubjectMerge` | metagenome-analysis/fasta_pull_subseq_batch2.rb:27-35 | a passing hit on contig c2 widens an entry seeded on c1 as written, keeping subject c1, while the guarded merge leaves it unchanged |
| `HitMerge.GuardIrrelevantOnOneSubject` | metagenome-analysis/fasta_pull_subseq_batch2.rb:27 | when all hits of each query share one subject, the guarded and as-written folds give the same map |
| `Extraction.AscendingEnds` | metagenome-analysis/fasta_pull_subseq_batch2.rb:59-65 | the extracted start is the minimum and the stop the maximum of the stored coordinates |
| `Extraction.Slice` | metagenome-analysis/fasta_pull_subseq_batch2.rb:67-72 | the output holds the contig characters at 1-based positions `start..stop` in order, clipped to the contig; inside the contig its length is `stop - start + 1` |
| `Extraction.CopyRange` | metagenome-analysis/fasta_pull_subseq_batch2.rb:67-72 | the index loop that keeps character `i` when `start - 2 < i < stop` produces exactly `Slice` |
| `Extraction.ReverseComplement` | metagenome-analysis/fasta_pull_subseq_batch2.rb:81 | same length; character `k` is the complement of character `n - 1 - k` of the input |
| `Extraction.ComplementInvolution` | metagenome-analysis/fasta_pull_subseq_batch2.rb:81 | complementing a character twice gives it back |
| `Extraction.ReverseComplementInvolution` | metagenome-analysis/fasta_pull_subseq_batch2.rb:81 | reverse-complementing twice gives the sequence back |
| `Extraction.ReversedIff` | metagenome-analysis/fasta_pull_subseq_batch2.rb:79-81 | when the stored start exceeds the stored end, reverse-complementing the written sequence gives back the ascending slice; otherwise the written sequence is the ascending slice itself; equal ends are not reversed |
| `Extraction.RecordWithinContig` | metagenome-analysis/fasta_pull_subseq_batch2.rb:59-81 | inside the contig, a forward record reads `contig[lo-1+k]`, a reverse record reads the complement of `contig[hi-1-k]`, and has length `hi - lo + 1` |
| `Extraction.ExtractRecord` | metagenome-analysis/fasta_pull_subseq_batch2.rb:59-81 | fails with `MissingContig(subject)` exactly when the subject has no contig; otherwise returns the record whose name is `Header(query, outname, subject, Lo, Hi)`, the text `query:outname_subject_start-stop` with the ascending ends, and whose value is the oriented slice |
| `Extraction.ExtractAll` | metagenome-analysis/fasta_pull_subseq_batch2.rb:58-84 | succeeds exactly when every stored subject has a contig, with one record per stored query; otherwise reports a missing subject of some stored hit |
| `Extraction.SliceExamples` | metagenome-analysis/fasta_pull_subseq_batch2.rb:59-81 | [3, 7] on ACGTACGTAC gives GTACG, [7, 3] gives CGTAC, and span [2, 9] of q1 gives the record `q1:out_c1_2-9` / CGTACGTA |
| `Extraction.MissingContigStops` | metagenome-analysis/fasta_pull_subseq_batch2.rb:66 | a stored hit on contig c2 with only c1 loaded does not have all its contigs present |
| `Decimal.IntText` | metagenome-analysis/fasta_pull_subseq_batch2.rb:76 | the text of a coordinate in the header is non-empty and starts with a minus sign exactly for a negative number |
| `Decimal.NatTextRoundTrip` | metagenome-analysis/fasta_pull_subseq_batch2.rb:76 | reading the decimal digits of a natural number back gives the number |
| `Decimal.IntTextRoundTrip` | metagenome-analysis/fasta_pull_subseq_batch2.rb:76 | the header text of a coordinate reads back as that coordinate |
| `Decimal.IntTextInjective` | metagenome-analysis/fasta_pull_subseq_batch2.rb:76 | distinct coordinates have distinct header text |
| `MlstRecord.Mlst.constructor` | metagenome-analysis/mlst_class.rb:5-10 | a new record stores strain, concatname and gene names as given, with no sequences |
| `MlstRecord.Store` | metagenome-analysis/mlst_class.rb:15 | Ruby's indexed assignment: the slot holds the new value, the array grows to the index if needed with `nil` padding, and every other slot is unchanged |
| `MlstRecord.Mlst.AddGene` | metagenome-analysis/mlst_class.rb:12-17 | every slot whose gene name matches holds the sequence; every other slot keeps its value (or `nil` where the array grew); strain, concatname and gene names never change; an absent name changes nothing |
| `MlstRecord.FilledSlots` | metagenome-analysis/mlst_class.rb:13-17 | after the loop has visited indices `0..n-1`, matching visited slots hold the sequence, others are unchanged, and the array grew only up to a matching index |
| `MlstRecord.AddGeneSlots` | metagenome-analysis/mlst_class.rb:12-17 | the slot-by-slot effect of a whole `addgene` call |
| `MlstRecord.AddGeneAbsent` | metagenome-analysis/mlst_class.rb:13-17 | adding a gene whose name is not in the list leaves the sequences unchanged |
| `MlstRecord.AddGeneIdempotent` | metagenome-analysis/mlst_class.rb:12-17 | two identical `addgene` calls have the effect of one |
| `MlstRecord.JoinAppend` | metagenome-analysis/mlst_class.rb:22 | joining concatenates in index order: the join of two arrays is the join of the first followed by the join of the second |
| `MlstRecord.JoinSkipsEmpty` | metagenome-analysis/mlst_class.rb:22 | a `nil` slot contributes nothing to the joined sequences |
| `MlstRecord.Mlst.Summary` | metagenome-analysis/mlst_class.rb:20-28 | returns text exactly for format "cat": `>` and the strain, `_`, the rendered gene names, a newline, the joined sequences and a newline; any other format gives `nil` |
| `MlstRecord.Mlst.ToS` | metagenome-analysis/mlst_class.rb:30-32 | `to_s` is the summary in the default format "cat" |

## Left out

- The argument-count check, the usage text, `exit`, the `puts` progress messages and the `require` lines (fasta_pull_subseq_batch2.rb lines 3-14, 20, 56, 80): these are console interaction with no logic.
- Opening and reading the alignment file, and creating, writing and closing the output file (lines 22-23, 55, 83, 85). The input is a sequence of parsed hits; the output is a map from query to record.
- Loading the contigs (lines 15-18): the contig store is given as a map from header to sequence, in which a later duplicate header has already replaced an earlier one.
- Parsing a line into a hit (`BlastHit.new`) and the text coercions `to_f`/`to_i`: hits are given as structured values. Percent identity and the cutoff are reals, compared only by the one strict `>`. Coordinates are integers. IEEE float behaviour and malformed text are not modelled.
- Header coordinates: the script pastes the coordinate text as read; the model renders the integer in decimal. The two agree when the file has canonical decimal coordinates.
- The FASTA library (`NuBio::Sequence::Fasta`, its `to_s` formatting, `reverse_complement!`): its source is not part of this model. Reverse complement is assumed to swap A/T and C/G in either case and keep every other character. A record is its name and its sequence, not the formatted text.
- The stored hit is an object that the script updates in place. The model keeps it as a value in the map and replaces it field by field. Nothing else refers to that object, so aliasing is not observable.
- Extraction.ExtractAll: reports the missing subject of some stored hit, not necessarily the one Ruby reaches first. Ruby's hash order and the records already written before the failure are not modelled.
- Mlst: the attribute writers from `attr_accessor` are plain field assignment and are not modelled separately. The gene-name array the caller passes in is shared with the caller. The model copies it as a value, so changes the caller makes to it later are not modelled.
- MlstRecord.Mlst.AddGene: the sequence argument is a string; Ruby accepts any object, including `nil`.
- MlstRecord.Mlst.Summary: the text Ruby makes of the gene-name array (`Array#to_s`) is a parameter `render`, not a fixed format. The commented-out per-gene format (mlst_class.rb lines 23-26) is not code and is not modelled.
