/** The two somatic-status tables: code to status for VCF input
    (varscan2vcf.py line 57) and status to code for native input (line 111). */
module Somatic {
  import opened Results

  const LabelOfCode: map<string, string> :=
    map["0" := "Reference", "1" := "Germline", "2" := "Somatic", "3" := "LOH", "5" := "Unknown"]

  const CodeOfLabel: map<string, string> :=
    map["Reference" := "0", "Germline" := "1", "Somatic" := "2", "LOH" := "3", "Unknown" := "5"]

  /** `somaticDict[code]` in the VCF-to-native direction. */
  function Label(code: string): (r: Result<string>)
    ensures r.Ok? <==> code in {"0", "1", "2", "3", "5"}
    ensures r.Err? ==> r.error == UnmappedKey(code)
    ensures r.Ok? ==> r.value in {"Reference", "Germline", "Somatic", "LOH", "Unknown"}
  {
    if code in LabelOfCode then Ok(LabelOfCode[code]) else Err(UnmappedKey(code))
  }

  /** `somaticDict[status]` in the native-to-VCF direction. */
  function Code(status: string): (r: Result<string>)
    ensures r.Ok? <==> status in {"Reference", "Germline", "Somatic", "LOH", "Unknown"}
    ensures r.Err? ==> r.error == UnmappedKey(status)
    ensures r.Ok? ==> r.value in {"0", "1", "2", "3", "5"}
  {
    if status in CodeOfLabel then Ok(CodeOfLabel[status]) else Err(UnmappedKey(status))
  }

  /** The tables invert each other, in both directions. */
  lemma CodeOfLabelOfCode(code: string)
    requires Label(code).Ok?
    ensures Code(Label(code).value) == Ok(code)
  {
  }

  lemma LabelOfCodeOfLabel(status: string)
    requires Code(status).Ok?
    ensures Label(Code(status).value) == Ok(status)
  {
  }

  /** No code is also a status. */
  lemma CodeIsNoLabel(code: string)
    requires code in LabelOfCode
    ensures code !in CodeOfLabel
  {
  }

  /** Only the status "Somatic" has the code "2" that marks an INFO field SOMATIC. */
  lemma SomaticCode(status: string)
    ensures Code(status) == Ok("2") <==> status == "Somatic"
  {
  }
}
