# varscan2vcf, modelled in Dafny

`varscan2vcf.py` converts the output of the VarScan2 somatic caller between two
formats. One is VarScan2's native tab-separated format, with 23 columns per
record. The other is a minimal VCF 4.1 record. The program reads one file, looks
at its first line to decide which format the file is in, prints the header of
the other format, and converts every record line to one line of the other
format. The first record that cannot be converted raises an exception. That
stops the run, and the lines printed before it stay printed.

The model follows the program's own structure.

- `Results` (`results.dfy`): `Result` and `Option`, and the failures the
  program can raise:
  - `MissingField`: an `IndexError`.
  - `MissingInfoKey` and `UnmappedKey`: a `KeyError`, for a missing INFO key and
    for a key missing from a somatic-status table.
  - `ParseError`: a `ValueError` from `int()` or `float()`.
  - `NotFinite`: the `OverflowError` or `ValueError` of `int()` on an infinite
    or NaN somatic score.
- `Text` (`text.dfy`): the string methods the program calls. `split` on one
  character, `startswith`, `strip` with Python 3's whitespace set (the
  characters for which `str.isspace()` holds; Python 2's `strip` removes only
  ASCII whitespace), `replace`
  removing a character and `replace` of one character by another.
- `Numbers` (`numbers.dfy`): decimal digit strings. `int()` on a signed digit
  string, `float()` on a signed decimal with at most one point (read as an exact
  `real`), and `str()` of an integer.
- `Somatic` (`somatic.dfy`): the code→label table of line 57 and the
  label→code table of line 111.
- `Info` (`info.dfy`): the INFO dictionary loop of lines 88-94. It is both a
  method with a loop, as the program writes it, and the function that specifies
  the loop.
- `Samples` (`samples.dfy`): the per-sample column `GT:GQ:DP:RD:AD:FREQ:DP4` and
  its DP4 sub-field, split apart (lines 67-85) and put together (lines 162-170).
- `VcfToNative` (`vcf_to_native.dfy`): `makeNativeRec`, one VCF record to one
  native line.
- `NativeToVcf` (`native_to_vcf.dfy`): `makeVcfRecord`, one native line to one
  VCF record.
- `Headers` (`headers.dfy`): the two printed headers.
- `Converter` (`driver.dfy`): the two file loops and the first-line test.

A file is the sequence of lines `readlines()` returns, each with its newline.
The program's output is the sequence of lines it prints, without their
newlines, together with the failure that ended the run, if there was one.

Where the program and its documentation could be read differently, the model
follows the code.

- The header test of each loop looks at the raw line, before `strip()`.
  - A native line counts as a header when it starts with `chrom`.
  - A VCF line counts as a header when it starts with `#`.
- The direction test looks at the first line of the file, stripped, even when
  that line is empty.
- For a deletion (`-bases`), ALT is the variant with every `-` removed. REF is
  not used.
- The native status column (12) holds the label, such as `Somatic`. A native
  line whose column 12 holds a numeric code fails with a `KeyError`
  (`NativeToVcf.CodeInStatusColumn`).
- A native line must have at least 23 columns: column 22 is read for the normal
  DP4.
- Two quirks of the source are kept.
  - The per-sample FORMAT strings are built but never printed. So a VCF line
    the program writes cannot be converted back to a native line: it has 8
    columns, and `makeNativeRec` reads column 9, an `IndexError`
    (`Converter.VcfLineNotReadBack`). `Samples.SampleRoundTrip` states what
    would hold if the FORMAT strings were printed, except that the tumor DP4
    carries column 19 where column 18 belongs.
  - The tumor DP4 ends with column 19 instead of column 18
    (`NativeToVcf.TumorDp4Quirk`).

The two floating-point computations are a parameter `num: Numerics`: the
somatic score `int(-10 * log10(...))` for SSC, which is `None` where `int()`
raises, and `str()` of the allele frequency. The header texts
are a parameter `h: Headers`. `Headers.Printed` holds the program's exact texts,
and `Headers.PrintedShaped` proves they have the shape the driver's lemmas
assume.

## Model

| member | source | states |
|---|---|---|
| `Somatic.Label` | varscan2vcf.py:96 | The code→label lookup succeeds exactly for the codes 0, 1, 2, 3 and 5 and gives one of the five labels. Any other code is a `KeyError` naming it. |
| `Somatic.Code` | varscan2vcf.py:120 | The label→code lookup succeeds exactly for Reference, Germline, Somatic, LOH and Unknown and gives one of the five codes. Any other status is a `KeyError` naming it. |
| `Somatic.CodeOfLabelOfCode` | varscan2vcf.py:57 | Mapping a known code to its label and back gives the code again. |
| `Somatic.LabelOfCodeOfLabel` | varscan2vcf.py:111 | Mapping a known label to its code and back gives the label again. |
| `Somatic.CodeIsNoLabel` | varscan2vcf.py:111 | No code of the table of line 57 is a label of the table of line 111. |
| `Somatic.SomaticCode` | varscan2vcf.py:132 | A status maps to the code "2", which triggers the SOMATIC flag, exactly when it is "Somatic". |
| `Text.Split` | varscan2vcf.py:55 | `split` always gives at least one piece, and exactly one when the separator does not occur. |
| `Text.SplitSpec` | varscan2vcf.py:55 | No piece holds the separator, and joining the pieces with it gives back the text. |
| `Text.SplitOfJoin` | varscan2vcf.py:55 | Splitting a join of separator-free pieces gives back exactly those pieces. |
| `Text.Strip` | varscan2vcf.py:191 | `strip()` gives a slice of the line: everything cut off before and after it is whitespace, and what is left neither starts nor ends with whitespace. |
| `Text.StripFewerPieces` | varscan2vcf.py:191 | A stripped line never splits into more pieces than the raw line. |
| `Text.SplitCount` | varscan2vcf.py:55 | `split` gives one piece more than there are separators. |
| `Text.StripIdempotent` | varscan2vcf.py:207 | Stripping twice is stripping once. |
| `Text.RemoveKeeps` | varscan2vcf.py:179 | `replace(c, '')` keeps every other character, each as many times as before, and removes every `c`. |
| `Text.ReplaceCharAt` | varscan2vcf.py:130 | `replace(a, b)` of one character changes every `a` into `b` and nothing else, position by position. |
| `Numbers.ParseInt` | varscan2vcf.py:119 | `int()` succeeds exactly on an optional `+` or `-` followed by at least one digit (`IntText`). Its value is the digits' value, negated after `-`. Every other text, the empty one included, is a `ValueError` naming the text. |
| `Numbers.ParseIntOfIntToString` | varscan2vcf.py:119 | `int()` reads back the decimal text of every integer. |
| `Numbers.ParseDecimal` | varscan2vcf.py:130 | `float()` succeeds exactly on an optional sign followed by digits with at most one point and at least one digit in all (`DecimalText`). A digit string reads as its value. Every other text, the empty one included, is a `ValueError` naming the text. |
| `Numbers.ParseDecimalSigned` | varscan2vcf.py:130 | A leading `-` negates what `float()` reads and a leading `+` changes nothing. Either way the signed text reads exactly when the unsigned text does. |
| `Numbers.ParseDecimalPoint` | varscan2vcf.py:141 | `float()` of unsigned digits, a point and digits is the value of that numeral: the whole part plus the fraction's digits scaled by their power of ten. |
| `Info.ParseInfo` | varscan2vcf.py:88-94 | The dictionary loop over the `;`-pieces of INFO builds exactly the dictionary `InfoDict` specifies. |
| `Info.EntryParts` | varscan2vcf.py:92-94 | A piece with `=` sets the text before its first `=` to the text between its first and second `=`, or to the rest when there is no second. |
| `Info.AddPieceAt` | varscan2vcf.py:93-94 | One iteration adds a key only for a piece that is an entry for it, sets it to that entry's value, and leaves every other key's value alone. |
| `Info.InfoHasKey` | varscan2vcf.py:88-94 | A key is in the dictionary if and only if some piece is an entry for it. |
| `Info.InfoValue` | varscan2vcf.py:88-94 | A key's value is set by the last piece that is an entry for it. |
| `Info.FlagAddsNothing` | varscan2vcf.py:93 | A piece with no `=`, such as SOMATIC, leaves the whole dictionary unchanged. |
| `Info.AddEntry` | varscan2vcf.py:94 | An entry `k=v` sets `k` to `v` and leaves every other key as it was. |
| `Info.LaterEntryWins` | varscan2vcf.py:94 | A later entry for a key overrides an earlier one. |
| `Samples.ParseDp4` | varscan2vcf.py:72-75 | A DP4 text converts exactly when it has at least four `,`-parts; otherwise it is an `IndexError`. |
| `Samples.ParseSample` | varscan2vcf.py:67-71 | A sample column converts exactly when it has at least seven `:`-parts and the seventh has at least four `,`-parts; otherwise it is an `IndexError`. |
| `Samples.ParseSampleAt` | varscan2vcf.py:67-85 | A converted sample carries GT, RD, AD and FREQ from positions 0, 3, 4 and 5, and the four DP4 parts from the seventh position. GQ and DP are never read. |
| `Samples.Dp4RoundTrip` | varscan2vcf.py:162 | Reading the DP4 text `a,b,c,d` back gives the four counts. |
| `Samples.SampleRoundTrip` | varscan2vcf.py:163-170 | The FORMAT string built for a sample is read back by the VCF-side parser as that same sample. |
| `VcfToNative.ColumnsOf` | varscan2vcf.py:59-85 | Reading the VCF columns can fail only with an `IndexError`. |
| `VcfToNative.NativeFields` | varscan2vcf.py:96-104 | The 23 native fields are produced exactly when SS is present and a known code and GPV and SPV are present. |
| `VcfToNative.Terminated` | varscan2vcf.py:100 | Writing every field followed by a tab is the tab-join of the fields followed by one trailing empty field. |
| `VcfToNative.TerminatedSplit` | varscan2vcf.py:100-104 | The printed native line splits back into its fields and one empty piece after the final tab. |
| `VcfToNative.NativeRecord` | varscan2vcf.py:55-104 | `makeNativeRec` prints a line that ends with the tab after its last field, or fails with an `IndexError`, a `KeyError` for a missing INFO key, or a `KeyError` for an unknown SS code, and with nothing else. |
| `VcfToNative.MakeNativeRec` | varscan2vcf.py:50-104 | The method, with the INFO loop, prints exactly the line `NativeRecord` specifies or fails as it does. |
| `VcfToNative.NativeRecordOk` | varscan2vcf.py:55-98 | A VCF record converts if and only if it has at least 11 columns, both sample columns are readable, and INFO holds SS with a known code, GPV and SPV. A short line or an unreadable sample is an `IndexError`. |
| `VcfToNative.ReadColumnsAt` | varscan2vcf.py:59-85 | The conversion reads VCF columns 0, 1, 3, 4, 7, 9 and 10. |
| `VcfToNative.NativeLayout` | varscan2vcf.py:100-104 | The native line is, field by field: CHROM, POS, REF and ALT; RD, AD, FREQ and GT of the normal sample, then of the tumor sample; the status label of SS; GPV and SPV; the tumor DP4 and then the normal DP4; an empty piece after the final tab. |
| `VcfToNative.IgnoresIdAndFormat` | varscan2vcf.py:55-65 | Changing the ID column (2) or the FORMAT column (8) changes nothing in the result. |
| `NativeToVcf.FrequencyOfPercent` | varscan2vcf.py:130 | A VarScan2 frequency `w,f%` reads as the number w.f: the percent sign is dropped and the comma is the decimal point. |
| `NativeToVcf.FrequencyOfWholePercent` | varscan2vcf.py:141 | A whole percentage `w%` reads as w. |
| `NativeToVcf.Genotype` | varscan2vcf.py:141-155 | The call is 0/1 exactly for 10 < f < 75 and 1/1 exactly for f > 75. It is 0/0 exactly for f ≤ 10 or f = 75. |
| `NativeToVcf.AltAllele` | varscan2vcf.py:172-181 | ALT normalisation fails, with an `IndexError` at `alt[0]`, exactly when the variant is empty. |
| `NativeToVcf.DeletionAlt` | varscan2vcf.py:178-179 | A deletion `-bases` gives ALT `bases`, whatever REF is. |
| `NativeToVcf.InsertionAlt` | varscan2vcf.py:180-181 | An insertion `+bases` gives ALT REF followed by `bases`. |
| `NativeToVcf.DeletionIgnoresRef` | varscan2vcf.py:178-179 | For any variant starting with `-`, ALT is the same for every REF: the rest of the variant without its `-` signs, so its bases are the variant's other characters, each as often as it occurs. |
| `NativeToVcf.InsertionKeepsRef` | varscan2vcf.py:180-181 | For any variant starting with `+`, ALT is REF followed by the rest of the variant without its `+` signs, so its characters are REF's and the variant's other ones. |
| `NativeToVcf.ReadHead` | varscan2vcf.py:113-128 | The head columns are read exactly when there are at least 15 columns, the four read counts are integers, and the status is a known label. The result carries CHROM, POS, REF, the counts, the code, GPV and SPV. Failures come in the source's order. Columns 4, 5, 8 and 9 go to `int()` in that order, and the first that is not an integer is its `ValueError`. A line shorter than 13 columns whose present counts read is an `IndexError`. With 13 or more columns, an unknown status is a `KeyError` naming it. With 13 or 14 columns and a known status, the line is an `IndexError`. |
| `NativeToVcf.ScoreOf` | varscan2vcf.py:133-137 | `int(ssc)` succeeds exactly when the score is finite and gives that score; otherwise it fails with the error of `int()`, naming the p-value. |
| `NativeToVcf.ReadNumbers` | varscan2vcf.py:130-149 | The tumor frequency, SSC and the normal frequency are read in that order, exactly when all three succeed, and they are the parsed values. A non-finite score after a readable tumor frequency fails with `NotFinite`, whatever the normal frequency is. |
| `NativeToVcf.RecordOk` | varscan2vcf.py:112-181 | A native line converts if and only if: it has at least 23 columns; columns 4, 5, 8 and 9 are integers; column 12 is a known label; the tumor frequency parses, the somatic score is finite and the normal frequency parses; and the variant is not empty. |
| `NativeToVcf.RecordErrors` | varscan2vcf.py:112-181 | The failures come in the order the source meets them. Any failure of the head columns is the record's failure. A line shorter than 5 columns is an `IndexError`. With 13 or more columns, an unknown status is a `KeyError` naming it. Next, an unreadable tumor frequency (line 130) is its `ValueError`. A non-finite score is the error of `int()`. Then an unreadable normal frequency (line 141) is its `ValueError`. A line of 15 to 22 columns that gets past the frequencies is an `IndexError`. |
| `NativeToVcf.CodeInStatusColumn` | varscan2vcf.py:111-120 | A status column holding a numeric code, such as "2", is a `KeyError`, since the reverse table is keyed by label. |
| `NativeToVcf.RecordHead` | varscan2vcf.py:113-181 | A converted record keeps CHROM, POS and REF, has the normalised column 3 as ALT, and has each sample depth equal to its two read counts added. |
| `NativeToVcf.RecordInfo` | varscan2vcf.py:119-137 | The INFO text is built from the tumor frequency / 100, DP, the code of column 12, the score of column 14, and columns 13 and 14 as GPV and SPV. |
| `NativeToVcf.RecordSamples` | varscan2vcf.py:141-170 | The normal sample comes from columns 4, 5, 6 and 19-22, and the tumor sample from columns 8, 9, 10 and 15, 16, 17, 19. Each sample's genotype is called from its own frequency. |
| `NativeToVcf.TumorDp4Quirk` | varscan2vcf.py:169 | The tumor DP4 ends with column 19, which is also the first part of the normal DP4. |
| `NativeToVcf.IgnoresColumn18` | varscan2vcf.py:162-169 | Changing column 18 changes nothing in the result. |
| `NativeToVcf.DepthIsSampleSum` | varscan2vcf.py:119-165 | DP is the integer sum of columns 4, 5, 8 and 9, and so the sum of the two sample depths. |
| `NativeToVcf.InfoSplit` | varscan2vcf.py:132-137 | When no value holds a separator, the INFO text splits on `;` into exactly its pieces. |
| `NativeToVcf.Flagged` | varscan2vcf.py:132-137 | The INFO pieces contain SOMATIC if and only if SS is "2". |
| `NativeToVcf.SomaticFlag` | varscan2vcf.py:132-137 | The INFO text carries the SOMATIC flag between DP and SS if and only if SS is "2". |
| `NativeToVcf.InfoRoundTrip` | varscan2vcf.py:133-137 | Reading the INFO text back with the loop of lines 88-94 gives AF, DP, SS, SSC, GPV and SPV with the values it was built from. This holds when AF, SS, GPV and SPV contain no `;` or `=`. |
| `NativeToVcf.VcfRecordLine` | varscan2vcf.py:112-183 | `makeVcfRecord` prints a line exactly when the native line converts. Split on tabs, that line is native columns 0 and 1, ".", column 2, the normalised ALT, ".", "PASS", and then the pieces of the INFO text. |
| `NativeToVcf.VcfLayout` | varscan2vcf.py:183 | When no column holds a tab, the VCF line has eight tab-separated columns in this order. CHROM, POS and REF are columns 0, 1 and 2. ID, QUAL and FILTER are ".", "." and "PASS". ALT is the normalised variant and INFO is the INFO text. |
| `NativeToVcf.RecordTextSplit` | varscan2vcf.py:183 | The printed record splits back into its eight columns when none of the carried fields holds a tab. |
| `NativeToVcf.VcfInfo` | varscan2vcf.py:127-137 | Reading a converted record's INFO back gives AF, the total depth, the code of column 12, SSC and columns 13 and 14, provided those hold no `;` or `=`. DP reads back as the same integer. SOMATIC is present exactly when column 12 is "Somatic". |
| `Headers.PrintedShaped` | varscan2vcf.py:19-47 | The program's two headers: the native one starts with `chrom`, the VCF one starts with `##fileformat=VCFv4.1`, every VCF header line starts with `#`, and no header line ends in whitespace. |
| `Converter.DirectionOf` | varscan2vcf.py:207-209 | The VCF path is taken only for a file with a first line that, stripped, starts with `#`. |
| `Converter.Emit` | varscan2vcf.py:189-201 | The loop prints at most one line per non-header line, and exactly one per non-header line when no line fails. |
| `Converter.ConvertLines` | varscan2vcf.py:189-201 | The line loop skips headers, converts every other line in order, and stops at the first failure, keeping what it printed. Its result is exactly what `Emit` specifies. |
| `Converter.VcfFileToNative` | varscan2vcf.py:196-202 | `vcfToNative` prints the native header followed by the loop's lines. |
| `Converter.NativeFileToVcf` | varscan2vcf.py:186-192 | `NativeToVcf` prints the VCF header followed by the loop's lines. |
| `Converter.Dispatch` | varscan2vcf.py:205-212 | The run is `vcfToNative` when the first line, stripped, starts with `##fileformat=`, and `NativeToVcf` otherwise: exactly `Transcript`. |
| `Converter.Run` | varscan2vcf.py:205-212 | The whole program, `Dispatch` with its two record conversions, is exactly `Program`. `PathChoice` and `EmitSpec` state what that run prints. |
| `Converter.PathChoice` | varscan2vcf.py:207-212 | The first printed line is the native header if and only if the first input line, stripped, starts with `##fileformat=`. Otherwise it is the first VCF header line. This holds whatever the record conversions do. |
| `Converter.EmitStops` | varscan2vcf.py:189-201 | Once a line has failed, later lines change nothing. |
| `Converter.RecordsConcat` | varscan2vcf.py:189-201 | Filtering two files one after the other is filtering each separately. |
| `Converter.RecordsFilter` | varscan2vcf.py:190-200 | Header lines produce nothing, and every other line is kept once, in order. A file of headers only gives no records, and a file without headers gives all its lines. |
| `Converter.EmitSpec` | varscan2vcf.py:189-201 | The run prints the conversion of each non-header line in input order, up to the first that fails. A run without failure prints exactly one line per non-header line. A failure is that of the first line that does not convert. |
| `Converter.AllConvert` | varscan2vcf.py:189-201 | When every non-header line converts, the run ends without failure and prints one line for each. |
| `Converter.VcfOutputIsVcf` | varscan2vcf.py:207-209 | A file the native→VCF path writes is taken for VCF when it is read back. |
| `Converter.NativeOutputIsNative` | varscan2vcf.py:207-212 | A file the VCF→native path writes is taken for native when it is read back. |
| `Converter.VcfLineNotReadBack` | varscan2vcf.py:183 | A VCF line `makeVcfRecord` prints, read back with its newline and stripped, makes `makeNativeRec` fail with an `IndexError`: it has 8 columns. |
| `Converter.VcfHeaderSkipped` | varscan2vcf.py:200 | When a written VCF file is read back, its whole header is skipped. |
| `Converter.NativeHeaderSkipped` | varscan2vcf.py:190 | When a written native file is read back, its header line is skipped. |

## Left out

- Argument parsing (lines 10-16) and opening, reading and closing the file
  (lines 188, 192, 197, 202, 205, 213) are I/O. The input is a sequence of lines
  given to the model, and the output is returned as a sequence of printed lines.
- The somatic score `-10 * math.log10(float(spv))`, with any exception there
  caught as 0 (lines 122-125), and its truncation by `int()` (lines 133-134 and
  136-137) are floating point. Together they are the function `num.score`.
  `None` stands for the `OverflowError` or `ValueError` that `int()` raises for
  an infinite or NaN score (an spv such as `inf`, `1e400` or `nan`), outside the
  `try`; the run then stops with `NotFinite`. The model keeps only that a finite
  score is printed as a decimal integer.
- The allele frequency text `str(tumorAF)` and the division by 100 (line 130)
  are floating point. The model keeps the quotient as an exact `real` and leaves
  its text to `num.afText`, assuming only that `str()` of a float holds no tab,
  `;` or `=`.
- `float()` of a frequency is read as an exact decimal `real`. Python's
  exponents, `inf`, `nan`, surrounding whitespace and binary rounding are not
  modelled. The genotype thresholds compare those exact values.
- `int()` and `float()` accept ASCII decimal digits only, with an optional sign.
  Python's surrounding whitespace and `_` digit separators are not modelled.
  Python 3's `int()` and `float()` also accept non-ASCII decimal digits (for
  example Arabic-Indic or full-width digits); the model rejects them with a
  `ValueError`.
- The header texts (lines 19-47) are the parameter `h`. Only their shape
  (`Headers.Shaped`) is used, and `Headers.Printed` is the program's own text.
- The per-sample FORMAT strings (lines 163 and 170) are built and kept in the
  record, as the source does, but are never printed.
- The VCF→native path of the driver calls the function `NativeRecord`. The
  method `MakeNativeRec`, with its INFO loop, is proved equal to that function.
- `print` adds a newline to each line. The output is modelled as the sequence of
  printed lines, without the newlines.
