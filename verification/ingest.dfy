/** `ingest_data`: the Hugging Face preference dataset turned into training
    rows. A row whose preferred (`chosen`) code looks like Python gives two
    entries, the preferred code labelled clean and the rejected code
    labelled corrupted, until 3,000 rows have been taken.

    Loading the dataset and writing the CSV are left out: the dataset is
    an input, absent when loading fails, and the result is the list of
    entries written. */
module Ingest {
  import opened Wrappers
  import opened Strings
  import opened Seqs

  const MaxSamples: nat := 3000

  /** A dataset row: a record with optional `chosen` and `rejected`
      fields, or something else, on which `.get` fails. */
  datatype DpoRow = NotARecord | Record(chosen: Option<string>, rejected: Option<string>)

  /** The name of an entry: the number of rows taken before it and which
      side of the row it is. */
  datatype SampleName = SampleName(index: nat, clean: bool)

  /** An output entry; `target` is the `label` column: 0 clean, 1
      corrupted. */
  datatype Entry = Entry(rawCode: string, normalizedCode: string, target: int, source: SampleName)

  const NamePrefix: string := "huggingface_cybernative_"

  /** `f"huggingface_cybernative_{count}_clean"` and its `_corrupted`
      twin. */
  function SourceText(n: SampleName): string {
    NamePrefix + NatToString(n.index) + (if n.clean then "_clean" else "_corrupted")
  }

  /** The length of the run of digits that starts the text. */
  function DigitRun(s: string): (n: nat)
    ensures n <= |s|
  {
    if |s| == 0 || !('0' <= s[0] <= '9') then 0 else 1 + DigitRun(s[1..])
  }

  lemma {:induction false} DigitRunOfNumber(d: string, s: string)
    requires forall i | 0 <= i < |d| :: '0' <= d[i] <= '9'
    requires |s| > 0 && !('0' <= s[0] <= '9')
    ensures DigitRun(d + s) == |d|
  {
    if |d| > 0 {
      assert (d + s)[1..] == d[1..] + s;
      DigitRunOfNumber(d[1..], s);
    }
  }

  /** A number's digits followed by a suffix that starts with a non-digit
      determine both. */
  lemma {:induction false} NumberThenSuffix(a: nat, b: nat, sa: string, sb: string)
    requires |sa| > 0 && |sb| > 0 && !('0' <= sa[0] <= '9') && !('0' <= sb[0] <= '9')
    requires NatToString(a) + sa == NatToString(b) + sb
    ensures a == b && sa == sb
  {
    var da, db := NatToString(a), NatToString(b);
    var x := da + sa;
    DigitRunOfNumber(da, sa);
    DigitRunOfNumber(db, sb);
    assert da == x[..|da|] == db;
    NatToStringInjective(a, b);
    assert sa == x[|da|..] == sb;
  }

  /** Different entries have different source names. */
  lemma SourceTextInjective(m: SampleName, n: SampleName)
    requires SourceText(m) == SourceText(n)
    ensures m == n
  {
    var sm := if m.clean then "_clean" else "_corrupted";
    var sn := if n.clean then "_clean" else "_corrupted";
    assert SourceText(m) == NamePrefix + (NatToString(m.index) + sm);
    assert SourceText(n) == NamePrefix + (NatToString(n.index) + sn);
    assert NatToString(m.index) + sm == SourceText(m)[|NamePrefix|..];
    assert NatToString(n.index) + sn == SourceText(n)[|NamePrefix|..];
    NumberThenSuffix(m.index, n.index, sm, sn);
    assert |sm| == |sn|;
  }

  /** The Python filter: the preferred code holds `def ` or `import `. */
  predicate LooksLikePython(code: string) {
    Contains(code, "def ") || Contains(code, "import ")
  }

  /** A row taken into the output; the rejected code is never looked at. */
  predicate Taken(r: DpoRow) {
    r.Record? && LooksLikePython(r.chosen.GetOr(""))
  }

  /** The two entries of a taken row: preferred code clean, rejected code
      corrupted, named after the row's number; the normalised column is
      left empty for the pipeline to fill. */
  function EntriesOf(r: DpoRow, count: nat): (es: seq<Entry>)
    requires r.Record?
    ensures |es| == 2
    ensures es[0] == Entry(r.chosen.GetOr(""), "", 0, SampleName(count, true))
    ensures es[1] == Entry(r.rejected.GetOr(""), "", 1, SampleName(count, false))
  {
    [Entry(r.chosen.GetOr(""), "", 0, SampleName(count, true)),
     Entry(r.rejected.GetOr(""), "", 1, SampleName(count, false))]
  }

  /** The loop from `count` rows taken on: stop at the limit, skip rows
      that are not records or do not look like Python, and take the
      others. */
  function Collect(rows: seq<DpoRow>, count: nat): (es: seq<Entry>)
    ensures |es| % 2 == 0
    ensures count <= MaxSamples ==> |es| <= 2 * (MaxSamples - count)
    ensures count >= MaxSamples ==> es == []
    ensures forall i | 0 <= i < |es| :: es[i].normalizedCode == "" && es[i].target == i % 2
    decreases |rows|
  {
    if |rows| == 0 || count >= MaxSamples then []
    else if !Taken(rows[0]) then Collect(rows[1..], count)
    else EntriesOf(rows[0], count) + Collect(rows[1..], count + 1)
  }

  /** `ingest_data`: nothing when the dataset does not load; otherwise the
      entries of the loop from zero. */
  function IngestData(dataset: Option<seq<DpoRow>>): (r: Option<seq<Entry>>)
    ensures r.Some? <==> dataset.Some?
    ensures r.Some? ==> |r.value| % 2 == 0 && |r.value| <= 2 * MaxSamples
  {
    if dataset.None? then None else Some(Collect(dataset.value, 0))
  }

  // ---------------------------------------------------------------------
  // A reference definition: filter, cut at the limit, expand in pairs.

  /** The rows that pass the filter, in order. */
  function TakenRows(rows: seq<DpoRow>): (r: seq<DpoRow>)
    ensures forall i | 0 <= i < |r| :: Taken(r[i])
  {
    Filter(Taken, rows)
  }

  /** Each row expanded into its two entries, numbered from `first`. */
  function Pairs(rs: seq<DpoRow>, first: nat): (es: seq<Entry>)
    requires forall i | 0 <= i < |rs| :: rs[i].Record?
    ensures |es| == 2 * |rs|
  {
    seq(2 * |rs|, i requires 0 <= i < 2 * |rs| =>
      var r := rs[i / 2];
      if i % 2 == 0 then Entry(r.chosen.GetOr(""), "", 0, SampleName(first + i / 2, true))
      else Entry(r.rejected.GetOr(""), "", 1, SampleName(first + i / 2, false)))
  }

  lemma PairsCons(r: DpoRow, rest: seq<DpoRow>, first: nat)
    requires r.Record? && forall i | 0 <= i < |rest| :: rest[i].Record?
    ensures Pairs([r] + rest, first) == EntriesOf(r, first) + Pairs(rest, first + 1)
  {
    var rs := [r] + rest;
    var a, b := Pairs(rs, first), EntriesOf(r, first) + Pairs(rest, first + 1);
    forall i | 0 <= i < |a|
      ensures a[i] == b[i]
    {
      if i >= 2 {
        assert rs[i / 2] == rest[(i - 2) / 2];
      }
    }
  }

  /** The loop takes the first rows that pass the filter, as many as the
      limit leaves, and expands each into its two entries. */
  lemma {:induction false} CollectIsFilterThenPairs(rows: seq<DpoRow>, count: nat)
    requires count <= MaxSamples
    ensures Collect(rows, count) == Pairs(Take(TakenRows(rows), MaxSamples - count), count)
    decreases |rows|
  {
    var t := TakenRows(rows);
    if |rows| == 0 {
    } else if count == MaxSamples {
      assert Take(t, 0) == [];
    } else if !Taken(rows[0]) {
      CollectIsFilterThenPairs(rows[1..], count);
    } else {
      CollectIsFilterThenPairs(rows[1..], count + 1);
      var rest := TakenRows(rows[1..]);
      assert t == [rows[0]] + rest;
      assert Take(t, MaxSamples - count) == [rows[0]] + Take(rest, MaxSamples - (count + 1));
      PairsCons(rows[0], Take(rest, MaxSamples - (count + 1)), count);
    }
  }

  /** Exactly twice the number of rows taken: every row passing the
      filter, up to 3,000. */
  lemma EntryCount(rows: seq<DpoRow>)
    ensures var n := |TakenRows(rows)|;
      |Collect(rows, 0)| == 2 * (if n <= MaxSamples then n else MaxSamples)
  {
    CollectIsFilterThenPairs(rows, 0);
  }

  /** A row whose preferred code does not look like Python adds nothing,
      whatever its rejected code is. */
  lemma RejectedNeverInspected(rows: seq<DpoRow>, count: nat, chosen: Option<string>, rejected: Option<string>)
    requires !LooksLikePython(chosen.GetOr(""))
    ensures Collect([Record(chosen, rejected)] + rows, count) == Collect(rows, count)
  {
    assert ([Record(chosen, rejected)] + rows)[1..] == rows;
  }
}
