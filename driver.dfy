/** The driver of varscan2vcf.py (lines 186-212): the first line chooses the
    direction, the header of the other format is printed, and every line that
    is not a header is stripped and converted, until one of them fails.

    A file is the sequence `readlines()` gives, each line with its newline;
    what is printed is the sequence of printed lines, without their newlines. */
module Converter {
  import opened Results
  import opened Text
  import opened VcfToNative
  import opened NativeToVcf
  import opened Headers

  /** Which format the input is in. */
  datatype Direction = FromVcf | FromNative

  /** Lines 205-212: the input is VCF when its first line, stripped, starts
      with "##fileformat="; `readline()` of an empty file gives "", which
      selects the native path. */
  function DirectionOf(lines: seq<string>): (d: Direction)
    ensures d == FromVcf ==> |lines| > 0 && IsHeader(FromVcf, Strip(lines[0]))
  {
    if |lines| > 0 && StartsWith(Strip(lines[0]), "##fileformat=") then FromVcf else FromNative
  }

  /** Lines 190 and 200: the header test looks at the line before it is stripped. */
  predicate IsHeader(d: Direction, line: string) {
    match d
    case FromVcf => StartsWith(line, "#")
    case FromNative => StartsWith(line, "chrom")
  }

  /** Line 201: `makeNativeRec(line.strip())`. */
  function VcfConverter(): string -> Result<string> {
    line => NativeRecord(Strip(line))
  }

  /** Line 191: `makeVcfRecord(line.strip())`. */
  function NativeConverter(num: Numerics): string -> Result<string> {
    line => VcfRecordLine(Strip(line), num)
  }

  /** The lines the loop hands to the converter, in input order. */
  function Records(d: Direction, lines: seq<string>): seq<string> {
    if |lines| == 0 then []
    else
      var n := |lines| - 1;
      if IsHeader(d, lines[n]) then Records(d, lines[..n]) else Records(d, lines[..n]) + [lines[n]]
  }

  /** What a run prints, and the failure that ended it early, if any. */
  datatype Outcome = Outcome(printed: seq<string>, failure: Option<Failure>)

  /** The loop over `lines` after the header, with `convert` for the
      conversion of one line: a failure stops it, and what was printed
      before stays printed. */
  function Emit(d: Direction, convert: string -> Result<string>, lines: seq<string>): (o: Outcome)
    ensures |o.printed| <= |Records(d, lines)|
    ensures o.failure.None? ==> |o.printed| == |Records(d, lines)|
  {
    if |lines| == 0 then Outcome([], None)
    else
      var n := |lines| - 1;
      var o := Emit(d, convert, lines[..n]);
      if o.failure.Some? || IsHeader(d, lines[n]) then o
      else
        match convert(lines[n])
        case Ok(s) => Outcome(o.printed + [s], None)
        case Err(e) => Outcome(o.printed, Some(e))
  }


  /** `vcfToNative` on the whole input: the native header, then the loop,
      with `toNative` for the conversion of one line. */
  function VcfOutput(h: Headers, toNative: string -> Result<string>, lines: seq<string>): Outcome {
    var o := Emit(FromVcf, toNative, lines);
    Outcome([h.native] + o.printed, o.failure)
  }

  /** `NativeToVcf` on the whole input: the VCF header, then the loop, with
      `toVcf` for the conversion of one line. */
  function NativeOutput(h: Headers, toVcf: string -> Result<string>, lines: seq<string>): Outcome {
    var o := Emit(FromNative, toVcf, lines);
    Outcome(h.vcf + o.printed, o.failure)
  }

  /** Lines 205-212: the whole run. The program runs it with `VcfConverter()`
      and `NativeConverter(num)`. */
  function Transcript(h: Headers, lines: seq<string>, toNative: string -> Result<string>,
                      toVcf: string -> Result<string>): Outcome {
    match DirectionOf(lines)
    case FromVcf => VcfOutput(h, toNative, lines)
    case FromNative => NativeOutput(h, toVcf, lines)
  }

  /** The run of the program itself, with its two record conversions. */
  function Program(h: Headers, lines: seq<string>, num: Numerics): Outcome {
    Transcript(h, lines, VcfConverter(), NativeConverter(num))
  }

  /** The lines `readlines()` gives back for a file of printed lines. */
  function ReadBack(printed: seq<string>): (lines: seq<string>)
    ensures |lines| == |printed|
    ensures forall k :: 0 <= k < |printed| ==> lines[k] == printed[k] + "\n"
  {
    if |printed| == 0 then [] else [printed[0] + "\n"] + ReadBack(printed[1..])
  }

  // ----- the loops -----

  /** The loops of `NativeToVcf` (lines 189-191) and `vcfToNative` (lines
      199-201), with `convert` for the conversion of one line. */
  method ConvertLines(d: Direction, convert: string -> Result<string>, lines: seq<string>)
    returns (body: seq<string>, failure: Option<Failure>)
    ensures Outcome(body, failure) == Emit(d, convert, lines)
  {
    body := [];
    var i := 0;
    while i < |lines|
      invariant 0 <= i <= |lines|
      invariant Emit(d, convert, lines[..i]) == Outcome(body, None)
    {
      assert lines[..i + 1][..i] == lines[..i];
      if !IsHeader(d, lines[i]) {
        var r := convert(lines[i]);
        if r.Err? {
          EmitStops(d, convert, lines, i + 1);
          return body, Some(r.error);
        }
        body := body + [r.value];
      }
      i := i + 1;
    }
    assert lines[..|lines|] == lines;
    return body, None;
  }

  /** `vcfToNative` (lines 196-202), with `toNative` for `makeNativeRec`. */
  method VcfFileToNative(h: Headers, toNative: string -> Result<string>, lines: seq<string>)
    returns (printed: seq<string>, failure: Option<Failure>)
    ensures Outcome(printed, failure) == VcfOutput(h, toNative, lines)
  {
    var body;
    body, failure := ConvertLines(FromVcf, toNative, lines);
    printed := [h.native] + body;
  }

  /** `NativeToVcf` (lines 186-192), with `toVcf` for `makeVcfRecord`. */
  method NativeFileToVcf(h: Headers, toVcf: string -> Result<string>, lines: seq<string>)
    returns (printed: seq<string>, failure: Option<Failure>)
    ensures Outcome(printed, failure) == NativeOutput(h, toVcf, lines)
  {
    var body;
    body, failure := ConvertLines(FromNative, toVcf, lines);
    printed := h.vcf + body;
  }

  /** Lines 205-212: the first line picks `vcfToNative` or `NativeToVcf`. */
  method Dispatch(h: Headers, lines: seq<string>, toNative: string -> Result<string>,
                  toVcf: string -> Result<string>)
    returns (printed: seq<string>, failure: Option<Failure>)
    ensures Outcome(printed, failure) == Transcript(h, lines, toNative, toVcf)
  {
    if DirectionOf(lines) == FromVcf {
      printed, failure := VcfFileToNative(h, toNative, lines);
    } else {
      printed, failure := NativeFileToVcf(h, toVcf, lines);
    }
  }

  /** The program itself: `Dispatch` with its two record conversions; it
      runs with `h` = `Printed`. */
  method Run(h: Headers, lines: seq<string>, num: Numerics) returns (printed: seq<string>, failure: Option<Failure>)
    ensures Outcome(printed, failure) == Program(h, lines, num)
  {
    printed, failure := Dispatch(h, lines, VcfConverter(), NativeConverter(num));
  }

  // ----- properties -----

  /** Once the loop has failed, later lines change nothing. */
  lemma {:induction false} EmitStops(d: Direction, convert: string -> Result<string>, lines: seq<string>, j: nat)
    requires j <= |lines|
    requires Emit(d, convert, lines[..j]).failure.Some?
    ensures Emit(d, convert, lines) == Emit(d, convert, lines[..j])
    decreases |lines|
  {
    if j < |lines| {
      var n := |lines| - 1;
      assert lines[..n][..j] == lines[..j];
      EmitStops(d, convert, lines[..n], j);
      assert Emit(d, convert, lines[..n]).failure.Some?;
      assert Emit(d, convert, lines) == Emit(d, convert, lines[..n]);
    } else {
      assert lines[..j] == lines;
    }
  }

  /** Filtering one file after another is filtering the two separately. */
  lemma {:induction false} RecordsConcat(d: Direction, a: seq<string>, b: seq<string>)
    ensures Records(d, a + b) == Records(d, a) + Records(d, b)
    decreases |b|
  {
    if |b| == 0 {
      assert a + b == a;
    } else {
      var n := |b| - 1;
      assert (a + b)[..|a + b| - 1] == a + b[..n];
      RecordsConcat(d, a, b[..n]);
    }
  }

  /** Headers produce nothing; every other line is kept once, in order:
      the filtered lines are the lines that are not headers. */
  lemma RecordsFilter(d: Direction, lines: seq<string>)
    ensures |Records(d, lines)| <= |lines|
    ensures forall k :: 0 <= k < |Records(d, lines)| ==> !IsHeader(d, Records(d, lines)[k])
    ensures (forall k :: 0 <= k < |lines| ==> IsHeader(d, lines[k])) ==> Records(d, lines) == []
    ensures (forall k :: 0 <= k < |lines| ==> !IsHeader(d, lines[k])) ==> Records(d, lines) == lines
  {
    RecordsNoHeader(d, lines);
    if forall k :: 0 <= k < |lines| ==> IsHeader(d, lines[k]) {
      OnlyHeaders(d, lines);
    }
    if forall k :: 0 <= k < |lines| ==> !IsHeader(d, lines[k]) {
      NoHeaders(d, lines);
    }
  }

  /** No filtered line is a header, and there are no more of them than lines. */
  lemma {:induction false} RecordsNoHeader(d: Direction, lines: seq<string>)
    ensures |Records(d, lines)| <= |lines|
    ensures forall k :: 0 <= k < |Records(d, lines)| ==> !IsHeader(d, Records(d, lines)[k])
  {
    if |lines| > 0 {
      RecordsNoHeader(d, lines[..|lines| - 1]);
    }
  }

  lemma {:induction false} OnlyHeaders(d: Direction, lines: seq<string>)
    requires forall k :: 0 <= k < |lines| ==> IsHeader(d, lines[k])
    ensures Records(d, lines) == []
  {
    if |lines| > 0 {
      var n := |lines| - 1;
      assert forall k :: 0 <= k < n ==> lines[..n][k] == lines[k];
      OnlyHeaders(d, lines[..n]);
    }
  }

  lemma {:induction false} NoHeaders(d: Direction, lines: seq<string>)
    requires forall k :: 0 <= k < |lines| ==> !IsHeader(d, lines[k])
    ensures Records(d, lines) == lines
  {
    if |lines| > 0 {
      var n := |lines| - 1;
      assert forall k :: 0 <= k < n ==> lines[..n][k] == lines[k];
      NoHeaders(d, lines[..n]);
      assert lines[..n] + [lines[n]] == lines;
    }
  }

  /** The loop prints the conversions of the filtered lines, in order, up
      to the first that fails; a run without failure converts all of them,
      and a failure is that of the first line that does not convert. */
  lemma {:induction false} EmitSpec(d: Direction, convert: string -> Result<string>, lines: seq<string>)
    ensures var o, rs := Emit(d, convert, lines), Records(d, lines);
            && |o.printed| <= |rs|
            && (forall k :: 0 <= k < |o.printed| ==> convert(rs[k]) == Ok(o.printed[k]))
            && (o.failure.None? ==> |o.printed| == |rs|)
            && (o.failure.Some? ==> |o.printed| < |rs| && convert(rs[|o.printed|]) == Err(o.failure.value))
  {
    if |lines| > 0 {
      var n := |lines| - 1;
      EmitSpec(d, convert, lines[..n]);
    }
  }

  /** When every filtered line converts, the run prints one line for each. */
  lemma AllConvert(d: Direction, convert: string -> Result<string>, lines: seq<string>)
    requires forall k :: 0 <= k < |Records(d, lines)| ==> convert(Records(d, lines)[k]).Ok?
    ensures Emit(d, convert, lines).failure == None
    ensures |Emit(d, convert, lines).printed| == |Records(d, lines)|
  {
    EmitSpec(d, convert, lines);
  }

  /** The first printed line is the native header exactly when the first
      input line, stripped, starts with "##fileformat=", and the first line of
      the VCF header otherwise, whatever the two conversions do. */
  lemma PathChoice(h: Headers, lines: seq<string>, toNative: string -> Result<string>,
                   toVcf: string -> Result<string>)
    requires Shaped(h)
    ensures var o := Transcript(h, lines, toNative, toVcf);
            && |o.printed| > 0
            && (o.printed[0] == h.native <==> |lines| > 0 && StartsWith(Strip(lines[0]), "##fileformat="))
            && (o.printed[0] == h.vcf[0] <==> !(|lines| > 0 && StartsWith(Strip(lines[0]), "##fileformat=")))
  {
    HeadsDiffer(h);
  }

  /** The two headers start differently: "chrom" against '#'. */
  lemma HeadsDiffer(h: Headers)
    requires Shaped(h)
    ensures h.native != h.vcf[0]
  {
    var v := h.vcf[0];
    assert |v| > 0 && v[0] == '#';
    assert h.native[..5][0] == 'c';
  }

  /** A line that starts with something other than a space keeps its text
      up to its newline once stripped. */
  lemma StripLine(s: string)
    requires |s| > 0 && !IsSpace(s[0]) && !IsSpace(s[|s| - 1])
    ensures Strip(s + "\n") == s
  {
    var t := s + "\n";
    assert TrimStart(t) == t;
    assert t[..|t| - 1] == s;
    assert TrimEnd(t) == TrimEnd(s);
    StripUnpadded(s);
  }

  /** Read back, the VCF the program writes is taken for VCF. */
  lemma VcfOutputIsVcf(h: Headers, body: seq<string>)
    requires Shaped(h)
    ensures DirectionOf(ReadBack(h.vcf + body)) == FromVcf
  {
    var first := h.vcf[0];
    assert ReadBack(h.vcf + body)[0] == first + "\n";
    StripLine(first);
    assert first[..13] == "##fileformat=";
  }

  /** Read back, the native file the program writes is taken for native. */
  lemma NativeOutputIsNative(h: Headers, body: seq<string>)
    requires Shaped(h)
    ensures DirectionOf(ReadBack([h.native] + body)) == FromNative
  {
    var first := h.native;
    assert ReadBack([first] + body)[0] == first + "\n";
    assert first[0] == 'c';
    StripLine(first);
  }

  /** A VCF line the native→VCF path prints does not convert back: it has
      eight columns, fewer after stripping, so `makeNativeRec` fails with an
      IndexError on column 9. The sample columns are never printed, so the
      native→VCF→native round trip fails on every record. */
  lemma VcfLineNotReadBack(native: string, num: Numerics)
    requires PlainAf(num)
    requires VcfRecordLine(native, num).Ok?
    ensures NativeRecord(Strip(VcfRecordLine(native, num).value + "\n")) == Err(MissingField)
  {
    var f := Split(native, '\t');
    SplitSpec(native, '\t');
    VcfLayout(f, num);
    var out := VcfRecordLine(native, num).value;
    assert |Split(out, '\t')| == 8;
    var t := out + "\n";
    SplitCount(out, '\t');
    SplitCount(t, '\t');
    assert multiset(t) == multiset(out) + multiset("\n");
    StripFewerPieces(t, '\t');
    NativeRecordOk(Strip(t));
  }

  /** The VCF header the program writes is skipped when its output is read back. */
  lemma VcfHeaderSkipped(h: Headers, body: seq<string>)
    requires Shaped(h)
    ensures Records(FromVcf, ReadBack(h.vcf + body)) == Records(FromVcf, ReadBack(body))
  {
    ReadBackConcat(h.vcf, body);
    RecordsConcat(FromVcf, ReadBack(h.vcf), ReadBack(body));
    CommentsRead(h.vcf);
    RecordsFilter(FromVcf, ReadBack(h.vcf));
  }

  /** Lines that start with '#' are still VCF headers once read back. */
  lemma CommentsRead(v: seq<string>)
    requires forall k :: 0 <= k < |v| ==> |v[k]| > 0 && v[k][0] == '#'
    ensures forall k :: 0 <= k < |v| ==> IsHeader(FromVcf, ReadBack(v)[k])
  {
    forall k | 0 <= k < |v| ensures IsHeader(FromVcf, ReadBack(v)[k]) {
      assert (v[k] + "\n")[..1] == [v[k][0]];
    }
  }

  /** The native header the program writes is skipped when its output is read back. */
  lemma NativeHeaderSkipped(h: Headers, body: seq<string>)
    requires Shaped(h)
    ensures Records(FromNative, ReadBack([h.native] + body)) == Records(FromNative, ReadBack(body))
  {
    ReadBackConcat([h.native], body);
    RecordsConcat(FromNative, ReadBack([h.native]), ReadBack(body));
    assert (h.native + "\n")[..5] == "chrom";
    RecordsFilter(FromNative, ReadBack([h.native]));
  }

  lemma ReadBackConcat(a: seq<string>, b: seq<string>)
    ensures ReadBack(a + b) == ReadBack(a) + ReadBack(b)
  {
    assert forall k :: 0 <= k < |a + b| ==> ReadBack(a + b)[k] == (ReadBack(a) + ReadBack(b))[k];
  }
}
