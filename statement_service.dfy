/**
  * `StatementService`: where a statement stands in the batch output, and
  * which file a download serves. Whether a file exists is a predicate over
  * paths supplied by the caller, and the "now" timestamp of a status answer
  * is an opaque string.
  */
module StatementService {
  import opened Wrappers
  import opened JavaStrings

  /** The `StatusResponse` DTO. */
  datatype StatusResponse = StatusResponse(statementId: string, status: string, lastUpdatedAt: string, details: string)

  const PdfDir := "../BatchProcessingModule/output_batch/pdf/"
  const AfpDir := "../BatchProcessingModule/output_batch/afp/"

  const ConvertedToPdf := "Converted_To_PDF"
  const AfpGenerated := "AFP_Generated"
  const PdfDetails := "PDF is available for download."
  const AfpDetails := "AFP generated, awaiting PDF conversion."

  /**
    * `BATCH_OUTPUT_PDF_DIR.resolve(statementId + ".pdf")`: a .pdf file in
    * the pdf directory, from which the id is read back, so distinct ids
    * name distinct files.
    */
  function PdfPath(statementId: string): (p: string)
    ensures |p| == |PdfDir| + |statementId| + 4 && StartsWith(p, PdfDir) && EndsWith(p, ".pdf") && p[|PdfDir|..|p| - 4] == statementId
  {
    Framed(PdfDir, statementId, ".pdf");
    PdfDir + statementId + ".pdf"
  }

  /** `BATCH_OUTPUT_AFP_DIR.resolve(statementId + ".afp")`: the same in the afp directory. */
  function AfpPath(statementId: string): (p: string)
    ensures |p| == |AfpDir| + |statementId| + 4 && StartsWith(p, AfpDir) && EndsWith(p, ".afp") && p[|AfpDir|..|p| - 4] == statementId
  {
    Framed(AfpDir, statementId, ".afp");
    AfpDir + statementId + ".afp"
  }

  /**
    * `getStatementStatus(statementId)`: the pdf is looked at first, then the
    * afp; None stands for the `null` the controller turns into a 404.
    */
  function GetStatementStatus(statementId: string, fileExists: string -> bool, now: string): (r: Option<StatusResponse>)
    ensures r.None? <==> (!fileExists(PdfPath(statementId)) && !fileExists(AfpPath(statementId)))
    ensures r.Some? ==> r.value.statementId == statementId && r.value.lastUpdatedAt == now
  {
    if fileExists(PdfPath(statementId)) then
      Some(StatusResponse(statementId, ConvertedToPdf, now, PdfDetails))
    else if fileExists(AfpPath(statementId)) then
      Some(StatusResponse(statementId, AfpGenerated, now, AfpDetails))
    else
      None
  }

  /**
    * `getStatementFile(statementId, format)`: the path of the pdf, when the
    * format is "pdf" in any letter case and the pdf exists; None for `null`.
    */
  function GetStatementFile(statementId: string, format: string, fileExists: string -> bool): (r: Option<string>)
    ensures r.Some? ==> r.value == PdfPath(statementId) && fileExists(r.value)
  {
    if EqualsIgnoreCase("pdf", format) && fileExists(PdfPath(statementId)) then Some(PdfPath(statementId)) else None
  }

  /** A pdf wins over an afp: whenever the pdf exists the statement reads as converted, whatever the afp. */
  lemma PdfTakesPrecedence(statementId: string, fileExists: string -> bool, now: string)
    requires fileExists(PdfPath(statementId))
    ensures GetStatementStatus(statementId, fileExists, now)
         == Some(StatusResponse(statementId, "Converted_To_PDF", now, "PDF is available for download."))
  {
  }

  /** Without a pdf, an existing afp reads as generated and awaiting conversion. */
  lemma AfpAwaitingConversion(statementId: string, fileExists: string -> bool, now: string)
    requires !fileExists(PdfPath(statementId)) && fileExists(AfpPath(statementId))
    ensures GetStatementStatus(statementId, fileExists, now)
         == Some(StatusResponse(statementId, "AFP_Generated", now, "AFP generated, awaiting PDF conversion."))
  {
  }

  /** The status names the pdf exactly when the pdf exists, and the afp exactly when only the afp does. */
  lemma StatusReflectsFiles(statementId: string, fileExists: string -> bool, now: string)
    ensures var r := GetStatementStatus(statementId, fileExists, now);
      && (r.Some? && r.value.status == ConvertedToPdf <==> fileExists(PdfPath(statementId)))
      && (r.Some? && r.value.status == AfpGenerated
          <==> !fileExists(PdfPath(statementId)) && fileExists(AfpPath(statementId)))
  {
  }

  /** A file is served exactly when the format is "pdf" ignoring case and the pdf exists. */
  lemma FileServedIff(statementId: string, format: string, fileExists: string -> bool)
    ensures GetStatementFile(statementId, format, fileExists).Some?
        <==> (EqualsIgnoreCase("pdf", format) && fileExists(PdfPath(statementId)))
  {
  }

  /** An afp is never served, even when it is the only file there is. */
  lemma AfpNeverServed(statementId: string, format: string, fileExists: string -> bool)
    ensures GetStatementFile(statementId, format, fileExists) != Some(AfpPath(statementId))
  {
    assert PdfPath(statementId)[|PdfPath(statementId)| - 1] == 'f';
    assert AfpPath(statementId)[|AfpPath(statementId)| - 1] == 'p';
  }
}
