/** The per-sample genotype column GT:GQ:DP:RD:AD:FREQ:DP4 and its DP4
    sub-field, as named structures. */
module Samples {
  import opened Results
  import opened Text
  import opened Numbers

  /** DP4: strand read counts reference/forward, reference/reverse,
      variant/forward, variant/reverse. */
  datatype Dp4 = Dp4(refFwd: string, refRev: string, varFwd: string, varRev: string)

  /** The sub-fields of a sample column the converter carries: GT (position 0),
      RD (3), AD (4), FREQ (5) and DP4 (6). GQ (1) and DP (2) are not read. */
  datatype Sample = Sample(gt: string, reads1: string, reads2: string, freq: string, dp4: Dp4)

  /** `dp4.split(",")[0..3]` (varscan2vcf.py lines 72-75 and 82-85). */
  function ParseDp4(text: string): (r: Result<Dp4>)
    ensures r.Ok? <==> |Split(text, ',')| >= 4
    ensures r.Err? ==> r.error == MissingField
  {
    var p := Split(text, ',');
    if |p| < 4 then Err(MissingField) else Ok(Dp4(p[0], p[1], p[2], p[3]))
  }

  /** `column.split(":")` at positions 3, 4, 5, 0 and 6 (lines 67-71 and 77-81). */
  function ParseSample(column: string): (r: Result<Sample>)
    ensures r.Ok? <==> |Split(column, ':')| >= 7 && |Split(Split(column, ':')[6], ',')| >= 4
    ensures r.Err? ==> r.error == MissingField
  {
    var p := Split(column, ':');
    if |p| < 7 then Err(MissingField)
    else
      var dp4 :- ParseDp4(p[6]);
      Ok(Sample(p[0], p[3], p[4], p[5], dp4))
  }

  /** Which sub-fields a parsed sample carries. */
  lemma ParseSampleAt(column: string)
    requires ParseSample(column).Ok?
    ensures var p := Split(column, ':');
            && |p| >= 7
            && var q := Split(p[6], ',');
            && |q| >= 4
            && ParseSample(column).value == Sample(p[0], p[3], p[4], p[5], Dp4(q[0], q[1], q[2], q[3]))
  {
  }

  /** The sub-fields of a parsed sample avoid what the column avoids. */
  lemma SampleAvoids(column: string, c: char)
    requires c !in column && c != ':' && c != ','
    requires ParseSample(column).Ok?
    ensures var s := ParseSample(column).value;
            && c !in s.gt && c !in s.reads1 && c !in s.reads2 && c !in s.freq
            && c !in s.dp4.refFwd && c !in s.dp4.refRev && c !in s.dp4.varFwd && c !in s.dp4.varRev
  {
    var p := Split(column, ':');
    SplitPartsAvoid(column, ':', c);
    assert c !in p[6];
    SplitPartsAvoid(p[6], ',', c);
  }

  /** The DP4 text `a,b,c,d` (lines 162 and 169). */
  function Dp4Text(q: Dp4): string {
    Join([q.refFwd, q.refRev, q.varFwd, q.varRev], ',')
  }

  /** The sample text GT:GQ:DP:RD:AD:FREQ:DP4 with GQ "." (lines 163 and 170). */
  function SampleText(s: Sample, depth: int): string {
    Join([s.gt, ".", IntToString(depth), s.reads1, s.reads2, s.freq, Dp4Text(s.dp4)], ':')
  }

  predicate Dp4Plain(q: Dp4) {
    ',' !in q.refFwd && ',' !in q.refRev && ',' !in q.varFwd && ',' !in q.varRev
    && ':' !in q.refFwd && ':' !in q.refRev && ':' !in q.varFwd && ':' !in q.varRev
  }

  /** No sub-field holds a separator of the enclosing structure. */
  predicate SamplePlain(s: Sample) {
    ':' !in s.gt && ':' !in s.reads1 && ':' !in s.reads2 && ':' !in s.freq && Dp4Plain(s.dp4)
  }

  lemma IntTextPlain(i: int)
    ensures ':' !in IntToString(i) && ',' !in IntToString(i) && '\t' !in IntToString(i)
    ensures ';' !in IntToString(i) && '=' !in IntToString(i)
  {
    var digits := NatToString(if i < 0 then -i else i);
    DigitsHaveNo(digits, ':');
    DigitsHaveNo(digits, ',');
    DigitsHaveNo(digits, '\t');
    DigitsHaveNo(digits, ';');
    DigitsHaveNo(digits, '=');
  }

  /** Reading a DP4 text back gives the four counts. */
  lemma Dp4RoundTrip(q: Dp4)
    requires Dp4Plain(q)
    ensures ParseDp4(Dp4Text(q)) == Ok(q) && ':' !in Dp4Text(q)
  {
    var parts := [q.refFwd, q.refRev, q.varFwd, q.varRev];
    assert ParseDp4(Dp4Text(q)) == Ok(q) by { SplitOfJoin(parts, ','); }
    assert ':' !in Dp4Text(q) by { JoinAvoids(parts, ',', ':'); }
  }

  /** Reading a sample text back gives the sample: the sample text built in
      the native-to-VCF direction is the layout the VCF-to-native direction reads. */
  lemma SampleRoundTrip(s: Sample, depth: int)
    requires SamplePlain(s)
    ensures ParseSample(SampleText(s, depth)) == Ok(s)
  {
    var t := Dp4Text(s.dp4);
    Dp4RoundTrip(s.dp4);
    IntTextPlain(depth);
    var parts := [s.gt, ".", IntToString(depth), s.reads1, s.reads2, s.freq, t];
    SplitOfJoin(parts, ':');
  }
}
