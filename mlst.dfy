/** The MLST record of metagenome-analysis/mlst_class.rb: gene names and the sequences found for them. */
module MlstRecord {
  import opened Wrappers

  /** A Ruby array of sequences; `None` is the `nil` that padding leaves. */
  type Slots = seq<Option<string>>

  /** Ruby's `array[i] = x`: overwrite slot `i`, padding with `nil` past the end. */
  function Store(s: Slots, i: nat, x: Option<string>): (r: Slots)
    ensures |r| == if i < |s| then |s| else i + 1
    ensures r[i] == x
    ensures forall j :: 0 <= j < |r| && j != i ==> r[j] == if j < |s| then s[j] else None
  {
    if i < |s| then s[i := x] else s + seq(i - |s|, _ => None) + [x]
  }

  /** The slots after the `addgene` loop has visited indices `0..n-1`. */
  function Filled(s: Slots, names: seq<string>, name: string, v: string, n: nat): Slots
    requires n <= |names|
    decreases n
  {
    if n == 0 then s
    else
      var p := Filled(s, names, name, v, n - 1);
      if names[n - 1] == name then Store(p, n - 1, Some(v)) else p
  }

  /** The slots after `addgene(name, v)`. */
  function AddGeneTo(s: Slots, names: seq<string>, name: string, v: string): Slots
  {
    Filled(s, names, name, v, |names|)
  }

  /**
   * Slot by slot: every visited index whose gene name matches holds `v`;
   * every other slot keeps its old value, or `nil` where the array grew; it
   * grows only as far as the last matching index.
   */
  lemma {:induction false} FilledSlots(s: Slots, names: seq<string>, name: string, v: string, n: nat)
    requires n <= |names|
    ensures var r := Filled(s, names, name, v, n);
              |r| >= |s| &&
              (|r| > |s| ==> |r| - 1 < n && names[|r| - 1] == name) &&
              (forall j :: 0 <= j < n && names[j] == name ==> j < |r| && r[j] == Some(v)) &&
              (forall j :: 0 <= j < |r| && !(j < n && names[j] == name) ==> r[j] == if j < |s| then s[j] else None)
    decreases n
  {
    if n > 0 {
      FilledSlots(s, names, name, v, n - 1);
    }
  }

  /** `addgene` writes `v` into exactly the slots of the matching names. */
  lemma AddGeneSlots(s: Slots, names: seq<string>, name: string, v: string)
    ensures var r := AddGeneTo(s, names, name, v);
              |r| >= |s| &&
              (|r| > |s| ==> |r| - 1 < |names| && names[|r| - 1] == name) &&
              (forall j :: 0 <= j < |names| && names[j] == name ==> j < |r| && r[j] == Some(v)) &&
              (forall j :: 0 <= j < |r| && !(j < |names| && names[j] == name) ==> r[j] == if j < |s| then s[j] else None)
  {
    FilledSlots(s, names, name, v, |names|);
  }

  /** A name that is not in the list changes nothing. */
  lemma AddGeneAbsent(s: Slots, names: seq<string>, name: string, v: string)
    requires name !in names
    ensures AddGeneTo(s, names, name, v) == s
  {
    var r := AddGeneTo(s, names, name, v);
    AddGeneSlots(s, names, name, v);
    assert |r| == |s|;
    forall j | 0 <= j < |r| ensures r[j] == s[j] {
      if j < |names| {
        assert names[j] in names;
      }
    }
  }

  /** Two identical calls have the effect of one. */
  lemma AddGeneIdempotent(s: Slots, names: seq<string>, name: string, v: string)
    ensures AddGeneTo(AddGeneTo(s, names, name, v), names, name, v) == AddGeneTo(s, names, name, v)
  {
    var r1 := AddGeneTo(s, names, name, v);
    var r2 := AddGeneTo(r1, names, name, v);
    AddGeneSlots(s, names, name, v);
    AddGeneSlots(r1, names, name, v);
    assert |r2| == |r1|;
    forall j | 0 <= j < |r1| ensures r2[j] == r1[j] {
    }
  }

  /** Ruby's `join("")`: the sequences in index order, `nil` contributing nothing. */
  function Join(s: Slots): string
    decreases |s|
  {
    if s == [] then "" else Join(s[..|s| - 1]) + (if s[|s| - 1].Some? then s[|s| - 1].value else "")
  }

  lemma {:induction false} JoinAppend(s: Slots, t: Slots)
    ensures Join(s + t) == Join(s) + Join(t)
    decreases |t|
  {
    if t == [] {
      assert s + t == s;
    } else {
      var t' := t[..|t| - 1];
      assert (s + t)[..|s + t| - 1] == s + t';
      JoinAppend(s, t');
    }
  }

  /** `nil` slots leave the joined text as it is. */
  lemma JoinSkipsEmpty(s: Slots, t: Slots)
    ensures Join(s + [None] + t) == Join(s + t)
  {
    JoinAppend(s + [None], t);
    JoinAppend(s, [None]);
    JoinAppend(s, t);
    var empty: Slots := [None];
    assert empty[..0] == [];
  }

  class Mlst {
    var strain: string
    var concatname: string
    var genenames: seq<string>
    var sequences: Slots

    /** `initialize(s, c, g)`: the given fields and no sequences yet. */
    constructor (s: string, c: string, g: seq<string>)
      ensures strain == s && concatname == c && genenames == g && sequences == []
    {
      strain := s;
      concatname := c;
      genenames := g;
      sequences := [];
    }

    /** `addgene(name, sequence)`: store `sequence` at every index whose gene name is `name`. */
    method AddGene(name: string, sequence: string)
      modifies this
      ensures sequences == AddGeneTo(old(sequences), genenames, name, sequence)
      ensures strain == old(strain) && concatname == old(concatname) && genenames == old(genenames)
      ensures forall i :: 0 <= i < |genenames| && genenames[i] == name ==> i < |sequences| && sequences[i] == Some(sequence)
      ensures forall i :: 0 <= i < |sequences| && !(i < |genenames| && genenames[i] == name) ==>
                sequences[i] == if i < |old(sequences)| then old(sequences)[i] else None
      ensures name !in genenames ==> sequences == old(sequences)
    {
      var i := 0;
      while i < |genenames|
        invariant 0 <= i <= |genenames|
        invariant strain == old(strain) && concatname == old(concatname) && genenames == old(genenames)
        invariant sequences == Filled(old(sequences), genenames, name, sequence, i)
      {
        if genenames[i] == name {
          sequences := Store(sequences, i, Some(sequence));
        }
        i := i + 1;
      }
      AddGeneSlots(old(sequences), genenames, name, sequence);
      if name !in genenames {
        AddGeneAbsent(old(sequences), genenames, name, sequence);
      }
    }

    /**
     * `summary(format)`: for "cat", a header line `>strain_names` and one line
     * of the joined sequences; for any other format, `nil`. The text Ruby
     * makes of the gene-name array is the parameter `render`.
     */
    function Summary(format: string, render: seq<string> -> string): (r: Option<string>)
      reads this
      ensures r.Some? <==> format == "cat"
      ensures r.Some? ==>
                |r.value| == |strain| + |render(genenames)| + |Join(sequences)| + 4 &&
                r.value[..|strain| + 2] == ">" + strain + "_" &&
                r.value[|strain| + 2..|strain| + 2 + |render(genenames)|] == render(genenames) &&
                r.value[|r.value| - |Join(sequences)| - 2..] == "\n" + Join(sequences) + "\n"
    {
      if format == "cat" then Some(">" + strain + "_" + render(genenames) + "\n" + Join(sequences) + "\n")
      else None
    }

    /** `to_s`: the summary in the default format. */
    function ToS(render: seq<string> -> string): (r: string)
      reads this
      ensures Summary("cat", render) == Some(r)
    {
      Summary("cat", render).value
    }
  }
}
