/** One VCF record line to one native VarScan2 line (`makeNativeRec`,
    varscan2vcf.py lines 50-104). */
module VcfToNative {
  import opened Results
  import opened Text
  import opened Somatic
  import opened Info
  import opened Samples

  /** The VCF columns the conversion reads: 0, 1, 3, 4, 7, 9 and 10. */
  datatype VcfColumns = VcfColumns(chrom: string, pos: string, ref: string, alt: string,
                                   info: string, normal: Sample, tumor: Sample)

  /** Lines 59-85 on the tab-separated columns `f`: the columns, then the
      normal and the tumor sample. */
  function ColumnsOf(f: seq<string>): (r: Result<VcfColumns>)
    ensures r.Err? ==> r.error == MissingField
  {
    if |f| < 11 then Err(MissingField)
    else
      var normal :- ParseSample(f[9]);
      var tumor :- ParseSample(f[10]);
      Ok(VcfColumns(f[0], f[1], f[3], f[4], f[7], normal, tumor))
  }

  /** Lines 55-85. */
  function ReadColumns(line: string): (r: Result<VcfColumns>)
    ensures r.Err? ==> r.error == MissingField
  {
    ColumnsOf(Split(line, '\t'))
  }

  /** Lines 96-104: the 23 native fields, after the SS, GPV and SPV lookups. */
  function NativeFields(c: VcfColumns, info: map<string, string>): (r: Result<seq<string>>)
    ensures r.Ok? ==> |r.value| == 23
    ensures r.Ok? <==> "SS" in info && info["SS"] in LabelOfCode && "GPV" in info && "SPV" in info
  {
    if "SS" !in info then Err(MissingInfoKey("SS"))
    else
      var status :- Label(info["SS"]);
      if "GPV" !in info then Err(MissingInfoKey("GPV"))
      else if "SPV" !in info then Err(MissingInfoKey("SPV"))
      else
        var n, t := c.normal, c.tumor;
        Ok([c.chrom, c.pos, c.ref, c.alt,
            n.reads1, n.reads2, n.freq, n.gt,
            t.reads1, t.reads2, t.freq, t.gt,
            status, info["GPV"], info["SPV"],
            t.dp4.refFwd, t.dp4.refRev, t.dp4.varFwd, t.dp4.varRev,
            n.dp4.refFwd, n.dp4.refRev, n.dp4.varFwd, n.dp4.varRev])
  }

  /** The `%s\t` format of line 100: every field followed by a tab. */
  function Terminated(fields: seq<string>): (s: string)
    ensures s == Join(fields + [""], '\t')
  {
    if |fields| == 0 then ""
    else
      var rest := Terminated(fields[1..]);
      assert fields + [""] == [fields[0]] + (fields[1..] + [""]);
      JoinCons(fields[0], fields[1..] + [""], '\t');
      fields[0] + "\t" + rest
  }

  /** Splitting a terminated line gives its fields and one empty piece after the last tab. */
  lemma TerminatedSplit(fields: seq<string>)
    requires forall k :: 0 <= k < |fields| ==> '\t' !in fields[k]
    ensures Split(Terminated(fields), '\t') == fields + [""]
  {
    var parts := fields + [""];
    assert forall k :: 0 <= k < |parts| ==> '\t' !in parts[k] by {
      forall k | 0 <= k < |parts| ensures '\t' !in parts[k] {
        if k < |fields| { assert parts[k] == fields[k]; }
      }
    }
    SplitOfJoin(parts, '\t');
  }

  /** `makeNativeRec` (lines 55-104): the native line printed for a VCF
      record line, which ends with the tab after its last field, or the
      failure that aborts: an IndexError for a missing column or sub-field,
      a KeyError for a missing INFO key or an unknown SS code. */
  function NativeRecord(line: string): (r: Result<string>)
    ensures r.Ok? ==> |r.value| > 0 && r.value[|r.value| - 1] == '\t'
    ensures r.Err? ==> r.error == MissingField || r.error.MissingInfoKey? || r.error.UnmappedKey?
  {
    var c :- ReadColumns(line);
    var fields :- NativeFields(c, InfoDict(Split(c.info, ';')));
    TerminatedEnds(fields);
    Ok(Terminated(fields))
  }

  /** A non-empty terminated line ends with a tab. */
  lemma {:induction false} TerminatedEnds(fields: seq<string>)
    requires |fields| > 0
    ensures |Terminated(fields)| > 0 && Terminated(fields)[|Terminated(fields)| - 1] == '\t'
  {
    if |fields| > 1 {
      TerminatedEnds(fields[1..]);
    }
  }

  /** `makeNativeRec` with its INFO loop. */
  method MakeNativeRec(line: string) returns (r: Result<string>)
    ensures r == NativeRecord(line)
  {
    var c :- ReadColumns(line);
    var info := ParseInfo(c.info);
    var fields :- NativeFields(c, info);
    r := Ok(Terminated(fields));
  }

  /** A sample column converts exactly when it has seven ':'-separated
      sub-fields and the seventh has four ','-separated parts. */
  predicate SampleReadable(column: string) {
    var p := Split(column, ':');
    |p| >= 7 && |Split(p[6], ',')| >= 4
  }

  /** When a VCF record line converts, and when it fails. */
  lemma NativeRecordOk(line: string)
    ensures var f := Split(line, '\t');
            NativeRecord(line).Ok? <==>
              && |f| >= 11 && SampleReadable(f[9]) && SampleReadable(f[10])
              && var d := InfoDict(Split(f[7], ';'));
                 "SS" in d && d["SS"] in {"0", "1", "2", "3", "5"} && "GPV" in d && "SPV" in d
    ensures var f := Split(line, '\t');
            |f| < 11 || !SampleReadable(f[9]) || !SampleReadable(f[10]) ==> NativeRecord(line) == Err(MissingField)
  {
  }

  /** The native line has 23 fields, each followed by a tab: VCF columns 0, 1,
      3 and 4; RD, AD, FREQ and GT of the normal and then of the tumor sample
      (their sub-fields 3, 4, 5 and 0, by `ParseSampleAt`); the somatic-status
      label of SS, then GPV and SPV from INFO; the tumor and then the normal DP4. */
  lemma NativeLayout(line: string)
    requires NativeRecord(line).Ok?
    ensures var f := Split(line, '\t');
            && |f| >= 11 && ParseSample(f[9]).Ok? && ParseSample(f[10]).Ok?
            && var n, t := ParseSample(f[9]).value, ParseSample(f[10]).value;
            && var d := InfoDict(Split(f[7], ';'));
            && "SS" in d && d["SS"] in LabelOfCode && "GPV" in d && "SPV" in d
            && Split(NativeRecord(line).value, '\t')
               == [f[0], f[1], f[3], f[4],
                   n.reads1, n.reads2, n.freq, n.gt, t.reads1, t.reads2, t.freq, t.gt,
                   LabelOfCode[d["SS"]], d["GPV"], d["SPV"],
                   t.dp4.refFwd, t.dp4.refRev, t.dp4.varFwd, t.dp4.varRev,
                   n.dp4.refFwd, n.dp4.refRev, n.dp4.varFwd, n.dp4.varRev, ""]
  {
    var f := Split(line, '\t');
    ReadColumnsAt(line);
    NativeSplit(line);
    var c := ReadColumns(line).value;
    var d := InfoDict(Split(f[7], ';'));
    assert c.info == f[7];
    LayoutOf(f, c, d, NativeRecord(line).value);
  }

  /** `NativeLayout` for columns `c` read from `f` and the INFO dictionary `d`. */
  lemma LayoutOf(f: seq<string>, c: VcfColumns, d: map<string, string>, out: string)
    requires |f| >= 11 && ParseSample(f[9]).Ok? && ParseSample(f[10]).Ok?
    requires c == VcfColumns(f[0], f[1], f[3], f[4], f[7], ParseSample(f[9]).value, ParseSample(f[10]).value)
    requires NativeFields(c, d).Ok? && Split(out, '\t') == NativeFields(c, d).value + [""]
    ensures "SS" in d && d["SS"] in LabelOfCode && "GPV" in d && "SPV" in d
    ensures var n, t := ParseSample(f[9]).value, ParseSample(f[10]).value;
            Split(out, '\t')
            == [f[0], f[1], f[3], f[4],
                n.reads1, n.reads2, n.freq, n.gt, t.reads1, t.reads2, t.freq, t.gt,
                LabelOfCode[d["SS"]], d["GPV"], d["SPV"],
                t.dp4.refFwd, t.dp4.refRev, t.dp4.varFwd, t.dp4.varRev,
                n.dp4.refFwd, n.dp4.refRev, n.dp4.varFwd, n.dp4.varRev, ""]
  {
    FieldsOf(c, d);
  }

  /** The 23 fields in terms of the columns and the INFO dictionary. */
  lemma FieldsOf(c: VcfColumns, d: map<string, string>)
    requires NativeFields(c, d).Ok?
    ensures "SS" in d && d["SS"] in LabelOfCode && "GPV" in d && "SPV" in d
    ensures var n, t := c.normal, c.tumor;
            NativeFields(c, d).value
            == [c.chrom, c.pos, c.ref, c.alt,
                n.reads1, n.reads2, n.freq, n.gt, t.reads1, t.reads2, t.freq, t.gt,
                LabelOfCode[d["SS"]], d["GPV"], d["SPV"],
                t.dp4.refFwd, t.dp4.refRev, t.dp4.varFwd, t.dp4.varRev,
                n.dp4.refFwd, n.dp4.refRev, n.dp4.varFwd, n.dp4.varRev]
  {
  }

  /** Which VCF columns the conversion carries. */
  lemma ReadColumnsAt(line: string)
    requires ReadColumns(line).Ok?
    ensures var f := Split(line, '\t');
            && |f| >= 11 && ParseSample(f[9]).Ok? && ParseSample(f[10]).Ok?
            && ReadColumns(line).value
               == VcfColumns(f[0], f[1], f[3], f[4], f[7], ParseSample(f[9]).value, ParseSample(f[10]).value)
  {
  }

  /** The native line splits back into the 23 fields it was made of. */
  lemma NativeSplit(line: string)
    requires NativeRecord(line).Ok?
    ensures var c := ReadColumns(line).value;
            var fields := NativeFields(c, InfoDict(Split(c.info, ';'))).value;
            Split(NativeRecord(line).value, '\t') == fields + [""]
  {
    var c := ReadColumns(line).value;
    var d := InfoDict(Split(c.info, ';'));
    ReadColumnsAvoidTab(line);
    SplitPartsAvoid(c.info, ';', '\t');
    InfoAvoids(Split(c.info, ';'), '\t');
    NativeFieldsAvoidTab(c, d);
    var fields := NativeFields(c, d).value;
    assert NativeRecord(line).value == Terminated(fields);
    TerminatedSplit(fields);
  }

  /** No column the conversion carries holds `ch`. */
  predicate ColumnsAvoid(c: VcfColumns, ch: char) {
    && ch !in c.chrom && ch !in c.pos && ch !in c.ref && ch !in c.alt && ch !in c.info
    && ch !in c.normal.gt && ch !in c.normal.reads1 && ch !in c.normal.reads2 && ch !in c.normal.freq
    && ch !in c.normal.dp4.refFwd && ch !in c.normal.dp4.refRev && ch !in c.normal.dp4.varFwd && ch !in c.normal.dp4.varRev
    && ch !in c.tumor.gt && ch !in c.tumor.reads1 && ch !in c.tumor.reads2 && ch !in c.tumor.freq
    && ch !in c.tumor.dp4.refFwd && ch !in c.tumor.dp4.refRev && ch !in c.tumor.dp4.varFwd && ch !in c.tumor.dp4.varRev
  }

  lemma ReadColumnsAvoidTab(line: string)
    requires ReadColumns(line).Ok?
    ensures ColumnsAvoid(ReadColumns(line).value, '\t')
  {
    var f := Split(line, '\t');
    SplitSpec(line, '\t');
    SampleAvoids(f[9], '\t');
    SampleAvoids(f[10], '\t');
  }

  lemma NativeFieldsAvoidTab(c: VcfColumns, d: map<string, string>)
    requires ColumnsAvoid(c, '\t')
    requires forall k :: k in d ==> '\t' !in d[k]
    requires NativeFields(c, d).Ok?
    ensures forall k :: 0 <= k < |NativeFields(c, d).value| ==> '\t' !in NativeFields(c, d).value[k]
  {
    var status := LabelOfCode[d["SS"]];
    assert '\t' !in status;
  }

  /** Every value of the INFO dictionary is part of one of the pieces. */
  lemma {:induction false} InfoAvoids(pieces: seq<string>, c: char)
    requires c != '='
    requires forall j :: 0 <= j < |pieces| ==> c !in pieces[j]
    ensures forall k :: k in InfoDict(pieces) ==> c !in InfoDict(pieces)[k]
  {
    if |pieces| > 0 {
      var n := |pieces| - 1;
      InfoAvoids(pieces[..n], c);
      SplitPartsAvoid(pieces[n], '=', c);
    }
  }

  /** The ID column (2) and the FORMAT column (8) are never read. */
  lemma IgnoresIdAndFormat(columns: seq<string>, id: string, format: string)
    requires |columns| >= 11
    requires forall k :: 0 <= k < |columns| ==> '\t' !in columns[k]
    requires '\t' !in id && '\t' !in format
    ensures NativeRecord(Join(columns, '\t')) == NativeRecord(Join(columns[2 := id][8 := format], '\t'))
  {
    var other := columns[2 := id][8 := format];
    var line, line' := Join(columns, '\t'), Join(other, '\t');
    assert Split(line, '\t') == columns by { SplitOfJoin(columns, '\t'); }
    assert Split(line', '\t') == other by {
      assert forall k :: 0 <= k < |other| ==> other[k] == columns[k] || other[k] == id || other[k] == format;
      SplitOfJoin(other, '\t');
    }
    assert ReadColumns(line) == ReadColumns(line') by {
      assert ColumnsOf(columns) == ColumnsOf(other);
    }
  }
}
