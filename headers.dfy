/** The two headers the program prints before any record (lines 18-47).
    Their text plays no part in the conversion; the driver relies only on the
    shape `Shaped` states, which the program's own headers have. */
module Headers {
  import opened Text

  /** The native header line and the lines of the VCF header. */
  datatype Headers = Headers(native: string, vcf: seq<string>)

  /** What the driver needs of the headers: the native one starts with
      "chrom", the VCF one with the "##fileformat=" line, and every VCF
      header line starts with '#'; no line starts or ends with a space. */
  predicate Shaped(h: Headers) {
    && |h.native| > 5 && h.native[..5] == "chrom" && !IsSpace(h.native[|h.native| - 1])
    && |h.vcf| > 0 && h.vcf[0] == "##fileformat=VCFv4.1"
    && forall k :: 0 <= k < |h.vcf| ==> |h.vcf[k]| > 0 && h.vcf[k][0] == '#' && !IsSpace(h.vcf[k][|h.vcf[k]| - 1])
  }

  /** `printNativeHeader` (lines 19-24) and `printVcfHeader` (lines 28-47),
      each meta-information line written as its "##" marker and its text. */
  const Printed: Headers :=
    Headers(
      "chrom" + "\tposition\tref\tvar\tnormal_reads1\tnormal_reads2\tnormal_var_freq\tnormal_gt\ttumor_reads1\ttumor_reads\ttumor_var_freq\ttumor_gt\tsomatic_status\tvariant_p_value\tsomatic_p_value\ttumor_reads1_plus\ttumor_reads1_minus\ttumor_reads2_plus\ttumor_reads2_minus\tnormal_reads1_plus\tnormal_reads1_minus\tnormal_reads2_plus\tnormal_reads2_minus",
      ["##fileformat=VCFv4.1",
       "##" + "source=VarScan2",
       "##" + "INFO=<ID=AF,Number=A,Type=Float,Description=\"Allele Frequency\">",
       "##" + "INFO=<ID=DP,Number=1,Type=Integer,Description=\"Total depth of quality bases\">",
       "##" + "INFO=<ID=SOMATIC,Number=0,Type=Flag,Description=\"Indicates if record is a somatic mutation\">",
       "##" + "INFO=<ID=SS,Number=1,Type=String,Description=\"Somatic status of variant (0=Reference,1=Germline,2=Somatic,3=LOH, or 5=Unknown)\">",
       "##" + "INFO=<ID=SSC,Number=1,Type=String,Description=\"Somatic score in Phred scale (0-255) derived from somatic p-value\">",
       "##" + "INFO=<ID=GPV,Number=1,Type=Float,Description=\"Fisher's Exact Test P-value of tumor+normal versus no variant for Germline calls\">",
       "##" + "INFO=<ID=SPV,Number=1,Type=Float,Description=\"Fisher's Exact Test P-value of tumor versus normal for Somatic/LOH calls\">",
       "##" + "FILTER=<ID=str10,Description=\"Less than 10% or more than 90% of variant supporting reads on one strand\">",
       "##" + "FILTER=<ID=indelError,Description=\"Likely artifact due to indel reads at this position\">",
       "##" + "FORMAT=<ID=GT,Number=1,Type=String,Description=\"Genotype\">",
       "##" + "FORMAT=<ID=GQ,Number=1,Type=Integer,Description=\"Genotype Quality\">",
       "##" + "FORMAT=<ID=DP,Number=1,Type=Integer,Description=\"Read Depth\">",
       "##" + "FORMAT=<ID=RD,Number=1,Type=Integer,Description=\"Depth of reference-supporting bases (reads1)\">",
       "##" + "FORMAT=<ID=AD,Number=1,Type=Integer,Description=\"Depth of variant-supporting bases (reads2)\">",
       "##" + "FORMAT=<ID=FREQ,Number=1,Type=String,Description=\"Variant allele frequency\">",
       "##" + "FORMAT=<ID=DP4,Number=1,Type=String,Description=\"Strand read counts: ref/fwd, ref/rev, var/fwd, var/rev\">",
       "#" + "CHROM\tPOS\tID\tREF\tALT\tQUAL\tFILTER\tINFO"])

  /** The program's headers have the shape the driver relies on. */
  lemma PrintedShaped()
    ensures Shaped(Printed)
  {
    NativePrintedShaped();
    VcfPrintedShaped();
  }

  lemma NativePrintedShaped()
    ensures var n := Printed.native;
            |n| > 5 && n[..5] == "chrom" && !IsSpace(n[|n| - 1])
  {
  }

  lemma VcfPrintedShaped()
    ensures var v := Printed.vcf;
            && |v| > 0 && v[0] == "##fileformat=VCFv4.1"
            && forall k :: 0 <= k < |v| ==> |v[k]| > 0 && v[k][0] == '#' && !IsSpace(v[k][|v[k]| - 1])
  {
  }
}
