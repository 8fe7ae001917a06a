/** One native VarScan2 line to one VCF record line (`makeVcfRecord`,
    varscan2vcf.py lines 107-183). */
module NativeToVcf {
  import opened Results
  import opened Text
  import opened Numbers
  import opened Somatic
  import opened Info
  import opened Samples

  /** The two floating-point steps, left abstract. `score` gives SSC for the
      somatic p-value text: `-10 * log10(float(spv))`, or 0 when that raises
      (lines 122-125), truncated by `int()` where the INFO text is built
      (lines 133-134, 136-137). It is `None` when that `int()` raises, for a
      p-value whose logarithm is infinite or NaN (such as "inf" or "nan").
      `afText` gives `str()` of the allele frequency (line 130). */
  datatype Numerics = Numerics(score: string -> Option<int>, afText: real -> string)

  /** The AF value of the INFO text: `str()` of the tumor frequency as a
      fraction (line 130). */
  function AfText(num: Numerics, tumorFreq: real): string {
    num.afText(tumorFreq / 100.0)
  }

  /** `str(float)` writes digits, a sign, '.', 'e', "inf" or "nan": never a tab,
      ';' or '='. */
  ghost predicate PlainAf(num: Numerics) {
    forall x: real :: '\t' !in num.afText(x) && ';' !in num.afText(x) && '=' !in num.afText(x)
  }

  /** `f[i]`, failing with IndexError past the end. */
  function At(f: seq<string>, i: nat): (r: Result<string>)
    ensures r.Ok? <==> i < |f|
    ensures r.Ok? ==> r.value == f[i]
    ensures r.Err? ==> r.error == MissingField
  {
    if i < |f| then Ok(f[i]) else Err(MissingField)
  }

  /** `int(f[i])` */
  function IntAt(f: seq<string>, i: nat): (r: Result<int>)
    ensures r.Ok? <==> i < |f| && ParseInt(f[i]).Ok?
    ensures r.Ok? ==> r == ParseInt(f[i])
  {
    var s :- At(f, i);
    ParseInt(s)
  }

  /** `float(text.replace('%', '').replace(",", "."))` (lines 130, 141 and 149). */
  function Frequency(text: string): Result<real> {
    ParseDecimal(ReplaceChar(Remove(text, '%'), ',', '.'))
  }

  /** A VarScan2 frequency such as "12,5%" reads as 12.5: the percent sign is
      dropped and the comma read as the decimal point. */
  lemma FrequencyOfPercent(w: string, fraction: string)
    requires |w| > 0 && AllDigits(w) && AllDigits(fraction)
    ensures Frequency(w + "," + fraction + "%") == Ok(Magnitude(w, fraction))
  {
    PercentCommaToPoint(w, fraction);
    ParseDecimalPoint(w, fraction);
  }

  /** Normalising `w,f%` gives the plain decimal `w.f`. */
  lemma PercentCommaToPoint(w: string, fraction: string)
    requires AllDigits(w) && AllDigits(fraction)
    ensures ReplaceChar(Remove(w + "," + fraction + "%", '%'), ',', '.') == w + "." + fraction
  {
    DigitsHaveNo(w, '%');
    DigitsHaveNo(fraction, '%');
    PercentDropped(w + "," + fraction);
    DigitsHaveNo(w, ',');
    DigitsHaveNo(fraction, ',');
    CommaToPoint(w, fraction);
  }

  /** A whole percentage such as "40%" reads as that number. */
  lemma FrequencyOfWholePercent(whole: nat)
    ensures Frequency(NatToString(whole) + "%") == Ok(whole as real)
  {
    var w := NatToString(whole);
    DigitsHaveNo(w, '%');
    DigitsHaveNo(w, ',');
    PercentDropped(w);
    assert ReplaceChar(w, ',', '.') == w by {
      ReplaceCharAt(w, ',', '.');
    }
    assert IntToString(whole) == w;
    ParseDecimalOfIntToString(whole);
  }

  /** The trailing percent sign is all that `replace('%', '')` removes. */
  lemma PercentDropped(t: string)
    requires '%' !in t
    ensures Remove(t + "%", '%') == t
  {
    RemoveConcat(t, "%", '%');
    RemoveAbsent(t, '%');
  }

  /** `replace(",", ".")` turns the one comma into a point. */
  lemma CommaToPoint(w: string, fraction: string)
    requires ',' !in w && ',' !in fraction
    ensures ReplaceChar(w + "," + fraction, ',', '.') == w + "." + fraction
  {
    var t := w + "," + fraction;
    ReplaceCharAt(t, ',', '.');
    assert forall k :: 0 <= k < |t| ==> ReplaceChar(t, ',', '.')[k] == (w + "." + fraction)[k];
  }

  /** The genotype call of lines 142-147 and 150-155. */
  function Genotype(freq: real): (gt: string)
    ensures gt == "0/1" <==> 10.0 < freq < 75.0
    ensures gt == "1/1" <==> freq > 75.0
    ensures gt == "0/0" <==> freq <= 10.0 || freq == 75.0
  {
    if freq > 10.0 && freq < 75.0 then "0/1" else if freq > 75.0 then "1/1" else "0/0"
  }

  /** The ALT allele from VarScan2's indel notation (lines 172-181). */
  function AltAllele(ref: string, variant: string): (r: Result<string>)
    ensures r.Err? <==> |variant| == 0
    ensures r.Err? ==> r.error == MissingField
  {
    if |variant| == 0 then Err(MissingField)
    else if variant[0] == '-' then Ok(Remove(variant, '-'))
    else if variant[0] == '+' then Ok(ref + Remove(variant, '+'))
    else Ok(variant)
  }

  /** The INFO pieces with the values already written out as text, and the
      SOMATIC flag when `flag` holds. */
  function FlaggedPieces(af: string, dp: string, ss: string, ssc: string, gpv: string, spv: string, flag: bool): seq<string> {
    [Entry("AF", af), Entry("DP", dp)] + (if flag then ["SOMATIC"] else [])
    + [Entry("SS", ss), Entry("SSC", ssc), Entry("GPV", gpv), Entry("SPV", spv)]
  }

  /** The ';'-separated pieces of the INFO text of lines 132-137: the SOMATIC
      flag comes between DP and SS when SS is "2". */
  function InfoPieces(af: string, dp: int, ss: string, ssc: int, gpv: string, spv: string): seq<string> {
    FlaggedPieces(af, IntToString(dp), ss, IntToString(ssc), gpv, spv, ss == "2")
  }

  /** The dictionary the INFO text stands for. */
  function InfoMap(af: string, dp: int, ss: string, ssc: int, gpv: string, spv: string): map<string, string> {
    map["AF" := af, "DP" := IntToString(dp), "SS" := ss, "SSC" := IntToString(ssc), "GPV" := gpv, "SPV" := spv]
  }

  /** The INFO text the concatenations of lines 133-134 and 136-137 build. */
  function InfoText(af: string, dp: int, ss: string, ssc: int, gpv: string, spv: string): string {
    Join(InfoPieces(af, dp, ss, ssc, gpv, spv), ';')
  }

  /** What a native line becomes before printing. The two samples and their
      depths are the FORMAT strings of lines 163 and 170 (see `SampleText`);
      they are built but never printed. */
  datatype VcfRecord = VcfRecord(chrom: string, pos: string, ref: string, alt: string, info: string,
                                 depth: int, normal: Sample, normalDepth: int, tumor: Sample, tumorDepth: int)

  /** The columns read before the frequencies (lines 113-128): CHROM, POS,
      REF, the four read counts, the somatic code and the two p-values. */
  datatype Head = Head(chrom: string, pos: string, ref: string,
                       normalReads1: int, normalReads2: int, tumorReads1: int, tumorReads2: int,
                       ss: string, gpv: string, spv: string)

  /** Lines 113-128, failing where the source raises, in the order it evaluates. */
  function ReadHead(f: seq<string>): (r: Result<Head>)
    ensures r.Ok? <==>
              && |f| >= 15
              && ParseInt(f[4]).Ok? && ParseInt(f[5]).Ok? && ParseInt(f[8]).Ok? && ParseInt(f[9]).Ok?
              && f[12] in CodeOfLabel
    ensures r.Ok? ==>
              r.value == Head(f[0], f[1], f[2], ParseInt(f[4]).value, ParseInt(f[5]).value,
                              ParseInt(f[8]).value, ParseInt(f[9]).value, CodeOfLabel[f[12]], f[13], f[14])
    ensures |f| >= 5 && ParseInt(f[4]).Err? ==> r == Err(ParseError(f[4]))
    ensures |f| >= 6 && ParseInt(f[4]).Ok? && ParseInt(f[5]).Err? ==> r == Err(ParseError(f[5]))
    ensures |f| >= 9 && ParseInt(f[4]).Ok? && ParseInt(f[5]).Ok? && ParseInt(f[8]).Err? ==> r == Err(ParseError(f[8]))
    ensures && |f| >= 10
            && ParseInt(f[4]).Ok? && ParseInt(f[5]).Ok? && ParseInt(f[8]).Ok? && ParseInt(f[9]).Err?
            ==> r == Err(ParseError(f[9]))
    ensures && |f| < 13
            && (|f| > 4 ==> ParseInt(f[4]).Ok?) && (|f| > 5 ==> ParseInt(f[5]).Ok?)
            && (|f| > 8 ==> ParseInt(f[8]).Ok?) && (|f| > 9 ==> ParseInt(f[9]).Ok?)
            ==> r == Err(MissingField)
    ensures && |f| >= 13
            && ParseInt(f[4]).Ok? && ParseInt(f[5]).Ok? && ParseInt(f[8]).Ok? && ParseInt(f[9]).Ok?
            && f[12] !in CodeOfLabel
            ==> r == Err(UnmappedKey(f[12]))
    ensures && 13 <= |f| < 15
            && ParseInt(f[4]).Ok? && ParseInt(f[5]).Ok? && ParseInt(f[8]).Ok? && ParseInt(f[9]).Ok?
            && f[12] in CodeOfLabel
            ==> r == Err(MissingField)
  {
    var chrom :- At(f, 0);
    var pos :- At(f, 1);
    var ref :- At(f, 2);
    var normalReads1 :- IntAt(f, 4);
    var normalReads2 :- IntAt(f, 5);
    var tumorReads1 :- IntAt(f, 8);
    var tumorReads2 :- IntAt(f, 9);
    var status :- At(f, 12);
    var ss :- Code(status);
    var gpv :- At(f, 13);
    var spv :- At(f, 14);
    Ok(Head(chrom, pos, ref, normalReads1, normalReads2, tumorReads1, tumorReads2, ss, gpv, spv))
  }

  /** `int(ssc)` of lines 133-134 and 136-137 on the score of `spv`. */
  function ScoreOf(num: Numerics, spv: string): (r: Result<int>)
    ensures r.Ok? <==> num.score(spv).Some?
    ensures r.Ok? ==> r.value == num.score(spv).value
    ensures r.Err? ==> r.error == NotFinite(spv)
  {
    match num.score(spv)
    case Some(ssc) => Ok(ssc)
    case None => Err(NotFinite(spv))
  }

  /** The numbers read between the head and the samples, in the source's
      order: the tumor frequency (line 130), SSC as an integer (lines
      133-137) and the normal frequency (line 141). */
  function ReadNumbers(f: seq<string>, num: Numerics): (r: Result<(real, int, real)>)
    requires |f| > 14
    ensures r.Ok? <==> Frequency(f[10]).Ok? && num.score(f[14]).Some? && Frequency(f[6]).Ok?
    ensures r.Ok? ==> r.value == (Frequency(f[10]).value, num.score(f[14]).value, Frequency(f[6]).value)
    ensures Frequency(f[10]).Ok? && num.score(f[14]).None? ==> r == Err(NotFinite(f[14]))
  {
    var tumorFreq :- Frequency(f[10]);
    var ssc :- ScoreOf(num, f[14]);
    var normalFreq :- Frequency(f[6]);
    Ok((tumorFreq, ssc, normalFreq))
  }

  /** The total depth DP of line 119: the four read counts added up. */
  function Depth(h: Head): int {
    h.normalReads1 + h.normalReads2 + h.tumorReads1 + h.tumorReads2
  }

  /** Lines 141-181 once the head and the frequencies are read. */
  function Assemble(f: seq<string>, h: Head, tumorFreq: real, ssc: int, normalFreq: real, num: Numerics): Result<VcfRecord>
    requires |f| > 10
  {
    if |f| < 23 then Err(MissingField)
    else
      var normal := Sample(Genotype(normalFreq), f[4], f[5], f[6], Dp4(f[19], f[20], f[21], f[22]));
      var tumor := Sample(Genotype(tumorFreq), f[8], f[9], f[10], Dp4(f[15], f[16], f[17], f[19]));
      var alt :- AltAllele(h.ref, f[3]);
      var depth := Depth(h);
      var info := InfoText(AfText(num, tumorFreq), depth, h.ss, ssc, h.gpv, h.spv);
      Ok(VcfRecord(h.chrom, h.pos, h.ref, alt, info, depth, normal, h.normalReads1 + h.normalReads2,
                   tumor, h.tumorReads1 + h.tumorReads2))
  }

  /** Lines 112-181 on the tab-separated columns `f`. */
  function RecordOf(f: seq<string>, num: Numerics): Result<VcfRecord> {
    var h :- ReadHead(f);
    var xs :- ReadNumbers(f, num);
    Assemble(f, h, xs.0, xs.1, xs.2, num)
  }


  /** The eight columns printed by line 183. */
  function RecordText(r: VcfRecord): string {
    Join([r.chrom, r.pos, ".", r.ref, r.alt, ".", "PASS", r.info], '\t')
  }

  /** `makeVcfRecord` (lines 112-183): the VCF line printed for a native
      line, or the failure that aborts. The line's tab-separated columns are
      native columns 0 and 1, ".", native column 2, the normalised ALT, ".",
      "PASS", and then the INFO text. */
  function VcfRecordLine(line: string, num: Numerics): (r: Result<string>)
    ensures r.Ok? <==> RecordOf(Split(line, '\t'), num).Ok?
    ensures r.Ok? ==>
              var f := Split(line, '\t');
              && |f| >= 23 && AltAllele(f[2], f[3]).Ok?
              && Split(r.value, '\t')
                 == [f[0], f[1], ".", f[2], AltAllele(f[2], f[3]).value, ".", "PASS"]
                    + Split(RecordOf(f, num).value.info, '\t')
  {
    var f := Split(line, '\t');
    var rec :- RecordOf(f, num);
    SplitSpec(line, '\t');
    RecordColumns(f, num);
    Ok(RecordText(rec))
  }

  /** The columns of the printed record, when no native column holds a tab. */
  lemma RecordColumns(f: seq<string>, num: Numerics)
    requires RecordOf(f, num).Ok?
    requires forall k :: 0 <= k < |f| ==> '\t' !in f[k]
    ensures |f| >= 23 && AltAllele(f[2], f[3]).Ok?
    ensures var r := RecordOf(f, num).value;
            Split(RecordText(r), '\t')
            == [f[0], f[1], ".", f[2], AltAllele(f[2], f[3]).value, ".", "PASS"] + Split(r.info, '\t')
  {
    var r := RecordOf(f, num).value;
    RecordHead(f, num);
    assert r.chrom == f[0] && r.pos == f[1] && r.ref == f[2];
    AltAvoids(f[2], f[3], '\t');
    RecordTextColumns(r);
  }

  /** The printed record splits into its seven leading columns and the
      pieces of INFO, when none of the leading ones holds a tab. */
  lemma RecordTextColumns(r: VcfRecord)
    requires '\t' !in r.chrom && '\t' !in r.pos && '\t' !in r.ref && '\t' !in r.alt
    ensures Split(RecordText(r), '\t') == [r.chrom, r.pos, ".", r.ref, r.alt, ".", "PASS"] + Split(r.info, '\t')
  {
    var cols := [r.chrom, r.pos, ".", r.ref, r.alt, ".", "PASS"];
    assert cols + [r.info] == [r.chrom, r.pos, ".", r.ref, r.alt, ".", "PASS", r.info];
    SplitOfJoinLast(cols, r.info, '\t');
  }

  /** A deletion drops the '-' signs and keeps every other base of the
      variant, in order; REF plays no part. */
  lemma DeletionIgnoresRef(ref1: string, ref2: string, variant: string)
    requires |variant| > 0 && variant[0] == '-'
    ensures AltAllele(ref1, variant) == AltAllele(ref2, variant) == Ok(Remove(variant[1..], '-'))
    ensures multiset(AltAllele(ref1, variant).value) == multiset(variant)['-' := 0]
  {
    RemoveKeeps(variant, '-');
    assert Remove(variant, '-') == Remove(variant[1..], '-');
  }

  /** An insertion is REF followed by the variant's bases without its '+'
      signs. */
  lemma InsertionKeepsRef(ref: string, variant: string)
    requires |variant| > 0 && variant[0] == '+'
    ensures AltAllele(ref, variant) == Ok(ref + Remove(variant[1..], '+'))
    ensures multiset(AltAllele(ref, variant).value) == multiset(ref) + multiset(variant)['+' := 0]
  {
    RemoveKeeps(variant, '+');
    assert Remove(variant, '+') == Remove(variant[1..], '+');
    assert multiset(ref + Remove(variant, '+')) == multiset(ref) + multiset(Remove(variant, '+'));
  }

  /** A deletion `-bases` gives ALT `bases`; REF plays no part. */
  lemma DeletionAlt(ref: string, bases: string)
    requires '-' !in bases
    ensures AltAllele(ref, "-" + bases) == Ok(bases)
  {
    var v := "-" + bases;
    assert v[0] == '-' && v[1..] == bases;
    RemoveAbsent(bases, '-');
    assert Remove(v, '-') == Remove(v[1..], '-');
  }

  /** An insertion `+bases` gives ALT REF followed by `bases`. */
  lemma InsertionAlt(ref: string, bases: string)
    requires '+' !in bases
    ensures AltAllele(ref, "+" + bases) == Ok(ref + bases)
  {
    var v := "+" + bases;
    assert v[0] == '+' && v[1..] == bases;
    RemoveAbsent(bases, '+');
    assert Remove(v, '+') == Remove(v[1..], '+');
  }

  /** Any other non-empty variant is ALT as it stands. */
  lemma PlainAlt(ref: string, variant: string)
    requires |variant| > 0 && variant[0] != '-' && variant[0] != '+'
    ensures AltAllele(ref, variant) == Ok(variant)
  {
  }

  /** No INFO value holds a separator of the INFO text. */
  predicate InfoValuesPlain(af: string, ss: string, gpv: string, spv: string) {
    ';' !in af && ';' !in ss && ';' !in gpv && ';' !in spv
    && '=' !in af && '=' !in ss && '=' !in gpv && '=' !in spv
  }

  /** The INFO text splits into its pieces. */
  lemma InfoSplit(af: string, dp: int, ss: string, ssc: int, gpv: string, spv: string)
    requires InfoValuesPlain(af, ss, gpv, spv)
    ensures Split(InfoText(af, dp, ss, ssc, gpv, spv), ';') == InfoPieces(af, dp, ss, ssc, gpv, spv)
  {
    IntTextPlain(dp);
    IntTextPlain(ssc);
    SplitOfJoin(InfoPieces(af, dp, ss, ssc, gpv, spv), ';');
  }

  /** A `key=value` piece with a key shorter than "SOMATIC" is not the flag. */
  lemma EntryIsNotFlag(key: string, v: string)
    requires |key| < 7
    ensures Entry(key, v) != "SOMATIC"
  {
    assert Entry(key, v)[|key|] == '=';
  }

  /** The INFO text carries the SOMATIC flag exactly when SS is "2". */
  lemma SomaticFlag(af: string, dp: int, ss: string, ssc: int, gpv: string, spv: string)
    requires InfoValuesPlain(af, ss, gpv, spv)
    ensures "SOMATIC" in Split(InfoText(af, dp, ss, ssc, gpv, spv), ';') <==> ss == "2"
  {
    InfoSplit(af, dp, ss, ssc, gpv, spv);
    Flagged(af, dp, ss, ssc, gpv, spv);
  }

  /** The pieces hold the flag exactly when SS is "2". */
  lemma Flagged(af: string, dp: int, ss: string, ssc: int, gpv: string, spv: string)
    ensures "SOMATIC" in InfoPieces(af, dp, ss, ssc, gpv, spv) <==> ss == "2"
  {
    if ss == "2" {
      assert InfoPieces(af, dp, ss, ssc, gpv, spv)[2] == "SOMATIC";
    } else {
      NoFlag(af, dp, ss, ssc, gpv, spv);
    }
  }

  /** Without SS "2" every INFO piece is a `key=value` entry. */
  lemma NoFlag(af: string, dp: int, ss: string, ssc: int, gpv: string, spv: string)
    requires ss != "2"
    ensures "SOMATIC" !in InfoPieces(af, dp, ss, ssc, gpv, spv)
  {
    var ps := InfoPieces(af, dp, ss, ssc, gpv, spv);
    assert ps == [Entry("AF", af), Entry("DP", IntToString(dp)), Entry("SS", ss),
                  Entry("SSC", IntToString(ssc)), Entry("GPV", gpv), Entry("SPV", spv)];
    EntryIsNotFlag("AF", af);
    EntryIsNotFlag("DP", IntToString(dp));
    EntryIsNotFlag("SS", ss);
    EntryIsNotFlag("SSC", IntToString(ssc));
    EntryIsNotFlag("GPV", gpv);
    EntryIsNotFlag("SPV", spv);
  }

  /** Reading the INFO text back with the loop of lines 88-94 gives every
      value it was built from: the SOMATIC flag adds nothing. */
  lemma InfoRoundTrip(af: string, dp: int, ss: string, ssc: int, gpv: string, spv: string)
    requires InfoValuesPlain(af, ss, gpv, spv)
    ensures InfoDict(Split(InfoText(af, dp, ss, ssc, gpv, spv), ';')) == InfoMap(af, dp, ss, ssc, gpv, spv)
  {
    InfoSplit(af, dp, ss, ssc, gpv, spv);
    IntTextPlain(dp);
    IntTextPlain(ssc);
    PiecesDict(af, IntToString(dp), ss, IntToString(ssc), gpv, spv, ss == "2");
  }

  /** The loop of lines 88-94 reads every value back from the pieces, with
      or without the flag. */
  lemma PiecesDict(af: string, dp: string, ss: string, ssc: string, gpv: string, spv: string, flag: bool)
    requires '=' !in af && '=' !in dp && '=' !in ss && '=' !in ssc && '=' !in gpv && '=' !in spv
    ensures InfoDict(FlaggedPieces(af, dp, ss, ssc, gpv, spv, flag))
            == map["AF" := af, "DP" := dp, "SS" := ss, "SSC" := ssc, "GPV" := gpv, "SPV" := spv]
  {
    var p0: seq<string> := [];
    var p1 := [Entry("AF", af)];
    var p2 := p1 + [Entry("DP", dp)];
    var p3 := if flag then p2 + ["SOMATIC"] else p2;
    var p4 := p3 + [Entry("SS", ss)];
    var p5 := p4 + [Entry("SSC", ssc)];
    var p6 := p5 + [Entry("GPV", gpv)];
    assert FlaggedPieces(af, dp, ss, ssc, gpv, spv, flag) == p6 + [Entry("SPV", spv)];
    assert InfoDict(p0) == map[];
    assert p0 + [Entry("AF", af)] == p1;
    AddEntry(p0, "AF", af);
    AddEntry(p1, "DP", dp);
    assert InfoDict(p3) == InfoDict(p2) by { if flag { FlagAddsNothing(p2, "SOMATIC"); } }
    AddEntry(p3, "SS", ss);
    AddEntry(p4, "SSC", ssc);
    AddEntry(p5, "GPV", gpv);
    AddEntry(p6, "SPV", spv);
  }

  /** A native line converts exactly when it has 23 columns, the four read
      counts are integers, the status is a known label, both frequencies
      parse, the score of the somatic p-value is finite and the variant
      allele is not empty. */
  lemma RecordOk(f: seq<string>, num: Numerics)
    ensures RecordOf(f, num).Ok? <==>
              && |f| >= 23
              && ParseInt(f[4]).Ok? && ParseInt(f[5]).Ok? && ParseInt(f[8]).Ok? && ParseInt(f[9]).Ok?
              && f[12] in CodeOfLabel
              && Frequency(f[10]).Ok? && num.score(f[14]).Some? && Frequency(f[6]).Ok?
              && |f[3]| > 0
  {
  }

  /** The failures in the order the source meets them: a short line is an
      IndexError, an unknown status a KeyError naming it, an infinite or NaN
      score an error of `int()` once the tumor frequency is read. */
  lemma RecordErrors(f: seq<string>, num: Numerics)
    ensures |f| < 5 ==> RecordOf(f, num) == Err(MissingField)
    ensures ReadHead(f).Err? ==> RecordOf(f, num) == Err(ReadHead(f).error)
    ensures && |f| >= 13
            && ParseInt(f[4]).Ok? && ParseInt(f[5]).Ok? && ParseInt(f[8]).Ok? && ParseInt(f[9]).Ok?
            && f[12] !in CodeOfLabel
            ==> RecordOf(f, num) == Err(UnmappedKey(f[12]))
    ensures ReadHead(f).Ok? && Frequency(f[10]).Err? ==> RecordOf(f, num) == Err(Frequency(f[10]).error)
    ensures && |f| >= 15
            && ParseInt(f[4]).Ok? && ParseInt(f[5]).Ok? && ParseInt(f[8]).Ok? && ParseInt(f[9]).Ok?
            && f[12] in CodeOfLabel && Frequency(f[10]).Ok? && num.score(f[14]).None?
            ==> RecordOf(f, num) == Err(NotFinite(f[14]))
    ensures && ReadHead(f).Ok? && Frequency(f[10]).Ok? && num.score(f[14]).Some? && Frequency(f[6]).Err?
            ==> RecordOf(f, num) == Err(Frequency(f[6]).error)
    ensures && |f| >= 15
            && ParseInt(f[4]).Ok? && ParseInt(f[5]).Ok? && ParseInt(f[8]).Ok? && ParseInt(f[9]).Ok?
            && f[12] in CodeOfLabel && Frequency(f[10]).Ok? && num.score(f[14]).Some? && Frequency(f[6]).Ok?
            && |f| < 23
            ==> RecordOf(f, num) == Err(MissingField)
  {
  }

  /** A status column holding a numeric code rather than a label is a
      KeyError: the reverse table of line 111 is keyed by label. */
  lemma CodeInStatusColumn(f: seq<string>, num: Numerics)
    requires |f| >= 15
    requires ParseInt(f[4]).Ok? && ParseInt(f[5]).Ok? && ParseInt(f[8]).Ok? && ParseInt(f[9]).Ok?
    requires f[12] in LabelOfCode
    ensures RecordOf(f, num) == Err(UnmappedKey(f[12]))
  {
    CodeIsNoLabel(f[12]);
    RecordErrors(f, num);
  }

  /** What a converted record keeps of the head columns: CHROM, POS and REF
      as they stand, ALT as the normalised column 3, each sample depth as the
      sum of its two read counts. */
  lemma RecordHead(f: seq<string>, num: Numerics)
    requires RecordOf(f, num).Ok?
    ensures ReadHead(f).Ok? && |f| >= 23
    ensures var h, r := ReadHead(f).value, RecordOf(f, num).value;
            && r.chrom == h.chrom && r.pos == h.pos && r.ref == h.ref
            && AltAllele(h.ref, f[3]) == Ok(r.alt)
            && r.normalDepth == h.normalReads1 + h.normalReads2 && r.tumorDepth == h.tumorReads1 + h.tumorReads2
  {
    RecordParts(f, num);
    var h, xs := ReadHead(f).value, ReadNumbers(f, num).value;
    AssembleHead(f, h, xs.0, xs.1, xs.2, num, RecordOf(f, num).value);
  }

  /** What `Assemble` keeps of the head. */
  lemma AssembleHead(f: seq<string>, h: Head, tumorFreq: real, ssc: int, normalFreq: real, num: Numerics, r: VcfRecord)
    requires |f| > 10
    requires Assemble(f, h, tumorFreq, ssc, normalFreq, num) == Ok(r)
    ensures |f| >= 23
    ensures && r.chrom == h.chrom && r.pos == h.pos && r.ref == h.ref
            && AltAllele(h.ref, f[3]) == Ok(r.alt)
            && r.normalDepth == h.normalReads1 + h.normalReads2 && r.tumorDepth == h.tumorReads1 + h.tumorReads2
  {
  }

  /** The INFO text of a converted record is built from the tumor frequency,
      the total depth, the somatic code of the status column (12), the score
      of column 14 and the p-values of columns 13 and 14. */
  lemma RecordInfo(f: seq<string>, num: Numerics)
    requires RecordOf(f, num).Ok?
    ensures |f| >= 23 && Frequency(f[10]).Ok? && f[12] in CodeOfLabel && num.score(f[14]).Some?
    ensures var r := RecordOf(f, num).value;
            r.info == InfoText(AfText(num, Frequency(f[10]).value), r.depth, CodeOfLabel[f[12]],
                               num.score(f[14]).value, f[13], f[14])
  {
    RecordParts(f, num);
    var h, xs := ReadHead(f).value, ReadNumbers(f, num).value;
    AssembledInfo(f, h, xs.0, xs.1, xs.2, num, RecordOf(f, num).value);
  }

  /** `RecordInfo` for the head, the numbers and the record they assemble. */
  lemma AssembledInfo(f: seq<string>, h: Head, tumorFreq: real, ssc: int, normalFreq: real, num: Numerics, r: VcfRecord)
    requires |f| > 14 && ReadHead(f) == Ok(h) && ReadNumbers(f, num) == Ok((tumorFreq, ssc, normalFreq))
    requires Assemble(f, h, tumorFreq, ssc, normalFreq, num) == Ok(r)
    ensures |f| >= 23 && Frequency(f[10]).Ok? && f[12] in CodeOfLabel && num.score(f[14]).Some?
    ensures r.info == InfoText(AfText(num, Frequency(f[10]).value), r.depth, CodeOfLabel[f[12]],
                               num.score(f[14]).value, f[13], f[14])
  {
    HeadOf(f, h);
    NumbersOf(f, num, tumorFreq, ssc, normalFreq);
    AssembleInfo(f, h, tumorFreq, ssc, normalFreq, num, r);
  }

  /** The somatic code and the p-values a head carries. */
  lemma HeadOf(f: seq<string>, h: Head)
    requires ReadHead(f) == Ok(h)
    ensures |f| > 14 && f[12] in CodeOfLabel && h.ss == CodeOfLabel[f[12]] && h.gpv == f[13] && h.spv == f[14]
  {
  }

  /** The tumor frequency and the score the numbers carry. */
  lemma NumbersOf(f: seq<string>, num: Numerics, tumorFreq: real, ssc: int, normalFreq: real)
    requires |f| > 14 && ReadNumbers(f, num) == Ok((tumorFreq, ssc, normalFreq))
    ensures Frequency(f[10]) == Ok(tumorFreq) && num.score(f[14]) == Some(ssc) && Frequency(f[6]) == Ok(normalFreq)
  {
  }



  /** A converted record is the head and the frequencies put together. */
  lemma RecordParts(f: seq<string>, num: Numerics)
    requires RecordOf(f, num).Ok?
    ensures ReadHead(f).Ok? && |f| > 14 && ReadNumbers(f, num).Ok?
    ensures var h, xs := ReadHead(f).value, ReadNumbers(f, num).value;
            RecordOf(f, num) == Assemble(f, h, xs.0, xs.1, xs.2, num)
  {
  }

  /** The INFO text and the depth `Assemble` gives. */
  lemma AssembleInfo(f: seq<string>, h: Head, tumorFreq: real, ssc: int, normalFreq: real, num: Numerics, r: VcfRecord)
    requires |f| > 10
    requires Assemble(f, h, tumorFreq, ssc, normalFreq, num) == Ok(r)
    ensures r.depth == Depth(h)
    ensures r.info == InfoText(AfText(num, tumorFreq), Depth(h), h.ss, ssc, h.gpv, h.spv)
  {
  }

  /** The two samples of a converted record: the normal one from columns 4,
      5, 6 and 19-22, the tumor one from columns 8, 9, 10 and 15, 16, 17, 19,
      each with the genotype of its own frequency. */
  lemma RecordSamples(f: seq<string>, num: Numerics)
    requires RecordOf(f, num).Ok?
    ensures |f| >= 23 && Frequency(f[6]).Ok? && Frequency(f[10]).Ok?
    ensures var r := RecordOf(f, num).value;
            && r.normal == Sample(Genotype(Frequency(f[6]).value), f[4], f[5], f[6], Dp4(f[19], f[20], f[21], f[22]))
            && r.tumor == Sample(Genotype(Frequency(f[10]).value), f[8], f[9], f[10], Dp4(f[15], f[16], f[17], f[19]))
  {
    RecordParts(f, num);
    var h, xs := ReadHead(f).value, ReadNumbers(f, num).value;
    NumbersOf(f, num, xs.0, xs.1, xs.2);
    AssembleSamples(f, h, xs.0, xs.1, xs.2, num, RecordOf(f, num).value);
  }

  /** The samples of a record assembled from read frequencies. */
  lemma AssembleSamples(f: seq<string>, h: Head, tumorFreq: real, ssc: int, normalFreq: real, num: Numerics, r: VcfRecord)
    requires |f| > 10
    requires Assemble(f, h, tumorFreq, ssc, normalFreq, num) == Ok(r)
    ensures |f| >= 23
    ensures && r.normal == Sample(Genotype(normalFreq), f[4], f[5], f[6], Dp4(f[19], f[20], f[21], f[22]))
            && r.tumor == Sample(Genotype(tumorFreq), f[8], f[9], f[10], Dp4(f[15], f[16], f[17], f[19]))
  {
  }

  /** The tumor DP4 ends with native column 19, the first part of the
      normal DP4, where column 18 would be expected. */
  lemma TumorDp4Quirk(f: seq<string>, num: Numerics)
    requires RecordOf(f, num).Ok?
    ensures var r := RecordOf(f, num).value;
            |f| >= 23 && r.tumor.dp4.varRev == f[19] == r.normal.dp4.refFwd
  {
    RecordSamples(f, num);
  }

  /** Column 18 plays no part in the record. */
  lemma IgnoresColumn18(f: seq<string>, num: Numerics, other: string)
    requires |f| >= 23
    ensures RecordOf(f[18 := other], num) == RecordOf(f, num)
  {
    var g := f[18 := other];
    assert forall k :: 0 <= k < |f| && k != 18 ==> g[k] == f[k];
    assert ReadHead(g) == ReadHead(f);
    assert ReadNumbers(g, num) == ReadNumbers(f, num);
    if ReadHead(f).Ok? && ReadNumbers(f, num).Ok? {
      var h, xs := ReadHead(f).value, ReadNumbers(f, num).value;
      assert Assemble(g, h, xs.0, xs.1, xs.2, num) == Assemble(f, h, xs.0, xs.1, xs.2, num);
    }
  }

  /** The depth printed as DP is the sum of native columns 4, 5, 8 and 9,
      and so the sum of the two sample depths. */
  lemma DepthIsSampleSum(f: seq<string>, num: Numerics)
    requires RecordOf(f, num).Ok?
    ensures ParseInt(f[4]).Ok? && ParseInt(f[5]).Ok? && ParseInt(f[8]).Ok? && ParseInt(f[9]).Ok?
    ensures var r := RecordOf(f, num).value;
            && r.depth == ParseInt(f[4]).value + ParseInt(f[5]).value + ParseInt(f[8]).value + ParseInt(f[9]).value
            && r.depth == r.normalDepth + r.tumorDepth
  {
    RecordParts(f, num);
    var h, xs := ReadHead(f).value, ReadNumbers(f, num).value;
    AssembleHead(f, h, xs.0, xs.1, xs.2, num, RecordOf(f, num).value);
    AssembleInfo(f, h, xs.0, xs.1, xs.2, num, RecordOf(f, num).value);
  }

  /** A somatic code is a single digit. */
  lemma CodePlain(status: string)
    requires status in CodeOfLabel
    ensures var ss := CodeOfLabel[status];
            '\t' !in ss && ';' !in ss && '=' !in ss
  {
  }

  /** `k=v` holds a character only if `k` or `v` does, or it is '='. */
  lemma EntryAvoids(k: string, v: string, c: char)
    requires c !in k && c !in v && c != '='
    ensures c !in Entry(k, v)
  {
  }

  /** The INFO text holds no tab when none of its values does. */
  lemma InfoAvoidsTab(af: string, dp: int, ss: string, ssc: int, gpv: string, spv: string)
    requires '\t' !in af && '\t' !in ss && '\t' !in gpv && '\t' !in spv
    ensures '\t' !in InfoText(af, dp, ss, ssc, gpv, spv)
  {
    IntTextPlain(dp);
    IntTextPlain(ssc);
    PiecesAvoidTab(af, IntToString(dp), ss, IntToString(ssc), gpv, spv, ss == "2", InfoPieces(af, dp, ss, ssc, gpv, spv));
    JoinAvoids(InfoPieces(af, dp, ss, ssc, gpv, spv), ';', '\t');
  }

  /** No INFO piece holds a tab when none of the values does. */
  lemma PiecesAvoidTab(af: string, dp: string, ss: string, ssc: string, gpv: string, spv: string, flag: bool, ps: seq<string>)
    requires '\t' !in af && '\t' !in dp && '\t' !in ss && '\t' !in ssc && '\t' !in gpv && '\t' !in spv
    requires ps == FlaggedPieces(af, dp, ss, ssc, gpv, spv, flag)
    ensures forall k :: 0 <= k < |ps| ==> '\t' !in ps[k]
  {
    EntryAvoids("AF", af, '\t');
    EntryAvoids("DP", dp, '\t');
    EntryAvoids("SS", ss, '\t');
    EntryAvoids("SSC", ssc, '\t');
    EntryAvoids("GPV", gpv, '\t');
    EntryAvoids("SPV", spv, '\t');
  }

  /** ALT holds a character only if REF or the variant does. */
  lemma AltAvoids(ref: string, variant: string, c: char)
    requires c !in ref && c !in variant
    requires AltAllele(ref, variant).Ok?
    ensures c !in AltAllele(ref, variant).value
  {
    RemoveAvoids(variant, '-', c);
    RemoveAvoids(variant, '+', c);
  }

  /** The VCF line has eight tab-separated columns: native columns 0, 1 and 2
      as CHROM, POS and REF, the normalised ALT, the INFO text, and ".",
      "." and "PASS" for ID, QUAL and FILTER. The columns of a line hold no
      tab. */
  lemma VcfLayout(f: seq<string>, num: Numerics)
    requires PlainAf(num)
    requires RecordOf(f, num).Ok?
    requires forall k :: 0 <= k < |f| ==> '\t' !in f[k]
    ensures var r := RecordOf(f, num).value;
            && |f| >= 23
            && AltAllele(f[2], f[3]) == Ok(r.alt)
            && Split(RecordText(r), '\t') == [f[0], f[1], ".", f[2], r.alt, ".", "PASS", r.info]
  {
    var r := RecordOf(f, num).value;
    RecordHead(f, num);
    RecordInfo(f, num);
    AltAvoids(f[2], f[3], '\t');
    CodePlain(f[12]);
    InfoAvoidsTab(AfText(num, Frequency(f[10]).value), r.depth, CodeOfLabel[f[12]], num.score(f[14]).value, f[13], f[14]);
    RecordTextSplit(r);
  }

  /** The printed line splits back into its eight columns when none of the
      carried fields holds a tab. */
  lemma RecordTextSplit(r: VcfRecord)
    requires '\t' !in r.chrom && '\t' !in r.pos && '\t' !in r.ref && '\t' !in r.alt && '\t' !in r.info
    ensures Split(RecordText(r), '\t') == [r.chrom, r.pos, ".", r.ref, r.alt, ".", "PASS", r.info]
  {
    SplitOfJoin([r.chrom, r.pos, ".", r.ref, r.alt, ".", "PASS", r.info], '\t');
  }

  /** Reading the INFO text of a converted record back with the loop of
      lines 88-94 gives AF, the total depth, the somatic code of the status
      column, SSC and the p-values of columns 13 and 14, provided those hold
      neither ';' nor '='; the depth reads back as the same integer, and the
      SOMATIC flag is there exactly for "Somatic". */
  lemma VcfInfo(f: seq<string>, num: Numerics)
    requires PlainAf(num)
    requires RecordOf(f, num).Ok?
    requires |f| > 14 && ';' !in f[13] && '=' !in f[13] && ';' !in f[14] && '=' !in f[14]
    ensures Frequency(f[10]).Ok? && f[12] in CodeOfLabel && num.score(f[14]).Some?
    ensures var r := RecordOf(f, num).value;
            InfoDict(Split(r.info, ';'))
            == InfoMap(AfText(num, Frequency(f[10]).value), r.depth, CodeOfLabel[f[12]], num.score(f[14]).value, f[13], f[14])
    ensures var r := RecordOf(f, num).value;
            ParseInt(IntToString(r.depth)) == Ok(r.depth)
    ensures var r := RecordOf(f, num).value;
            "SOMATIC" in Split(r.info, ';') <==> f[12] == "Somatic"
  {
    var r := RecordOf(f, num).value;
    RecordInfo(f, num);
    var af := AfText(num, Frequency(f[10]).value);
    CodePlain(f[12]);
    InfoRoundTrip(af, r.depth, CodeOfLabel[f[12]], num.score(f[14]).value, f[13], f[14]);
    SomaticFlag(af, r.depth, CodeOfLabel[f[12]], num.score(f[14]).value, f[13], f[14]);
    ParseIntOfIntToString(r.depth);
    SomaticCode(f[12]);
  }
}
