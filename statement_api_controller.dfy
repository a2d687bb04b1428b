/**
  * `StatementApiController`: the status and download endpoints under
  * `/api/v1/statements`. Only the response each handler chooses is modelled
  * (status code, the headers it sets and the body), not the web framework.
  * The service the controller calls is a parameter, so the handlers can be
  * read against any service, and the lemmas at the end wire them to
  * `StatementService`.
  */
module StatementApi {
  import opened Wrappers
  import opened JavaStrings
  import opened StatementService

  const Ok := 200
  const NotFound := 404

  const NotFoundCode := "STATEMENT_NOT_FOUND"
  const ApplicationPdf := "application/pdf"
  const OctetStream := "application/octet-stream"

  /** The `ErrorResponse` DTO. */
  datatype ErrorResponse = ErrorResponse(errorCode: string, message: string)

  /** The body of a status answer: the statement's status, or an error. */
  datatype StatusBody = Found(status: StatusResponse) | Error(error: ErrorResponse)

  /** What `getStatementStatus` answers: an HTTP status code and a JSON body. */
  datatype StatusReply = StatusReply(code: int, body: StatusBody)

  /**
    * What `downloadStatement` answers: an empty 404, or a 200 carrying the
    * file with its Content-Disposition, length and media type.
    */
  datatype DownloadReply =
    | Missing
    | Attachment(contentDisposition: string, contentLength: nat, mediaType: string, file: string)

  function DownloadCode(r: DownloadReply): int {
    if r.Attachment? then Ok else NotFound
  }

  /** `"Statement with ID '" + statementId + "' not found."` */
  function NotFoundMessage(statementId: string): string {
    "Statement with ID '" + statementId + "' not found."
  }

  /**
    * `getStatementStatus(statementId)`, given what the service returned for
    * that id (None for `null`).
    */
  function StatusEndpoint(statementId: string, status: Option<StatusResponse>): (r: StatusReply)
    ensures r.code == Ok <==> status.Some?
    ensures r.code == Ok ==> r.body == Found(status.value)
    ensures r.code != Ok ==> r.code == NotFound && r.body == Error(ErrorResponse(NotFoundCode, NotFoundMessage(statementId)))
  {
    match status
    case Some(s) => StatusReply(Ok, Found(s))
    case None => StatusReply(NotFound, Error(ErrorResponse(NotFoundCode, NotFoundMessage(statementId))))
  }

  /**
    * The `format` request parameter after its default: "pdf" when the
    * parameter is absent or empty.
    */
  function EffectiveFormat(format: Option<string>): (f: string)
    ensures format.Some? && format.value != "" ==> f == format.value
    ensures f != ""
  {
    if format.None? || format.value == "" then "pdf" else format.value
  }

  /**
    * `downloadStatement(statementId, format)`. `service` stands for
    * `statementService.getStatementFile`, `fileExists` for `File.exists` and
    * `fileLength` for `File.length`.
    */
  function DownloadStatement(statementId: string, format: Option<string>, service: (string, string) -> Option<string>,
                             fileExists: string -> bool, fileLength: string -> nat): (r: DownloadReply)
    ensures var file := service(statementId, EffectiveFormat(format));
      r.Attachment? <==> file.Some? && fileExists(file.value)
    ensures r.Attachment? ==>
      && r.file == service(statementId, EffectiveFormat(format)).value
      && r.contentLength == fileLength(r.file)
      && r.contentDisposition == Disposition(LastSegment(r.file))
      && (r.mediaType == ApplicationPdf <==> EqualsIgnoreCase("pdf", EffectiveFormat(format)))
      && (r.mediaType != ApplicationPdf ==> r.mediaType == OctetStream)
  {
    var fmt := EffectiveFormat(format);
    var file := service(statementId, fmt);
    if file.Some? && fileExists(file.value) then
      var mediaType := if EqualsIgnoreCase("pdf", fmt) then ApplicationPdf else OctetStream;
      Attachment(Disposition(LastSegment(file.value)), fileLength(file.value), mediaType, file.value)
    else
      Missing
  }

  /** The Content-Disposition header naming the file sent. */
  function Disposition(fileName: string): string {
    "attachment; filename=\"" + fileName + "\""
  }

  /** The file name of a statement's pdf, for an id without '/', is the id with ".pdf". */
  lemma PdfFileName(statementId: string)
    requires '/' !in statementId
    ensures LastSegment(PdfPath(statementId)) == statementId + ".pdf"
  {
    assert PdfPath(statementId) == PdfDir + (statementId + ".pdf");
    LastSegmentAfterSlash(PdfDir, statementId + ".pdf");
  }

  /** The service's `getStatementFile`, as the function the controller calls. */
  function FileService(fileExists: string -> bool): (string, string) -> Option<string> {
    (statementId, format) => GetStatementFile(statementId, format, fileExists)
  }

  /** Calling the wired service is calling `getStatementFile`. */
  lemma ServiceCall(statementId: string, format: string, fileExists: string -> bool)
    ensures FileService(fileExists)(statementId, format) == GetStatementFile(statementId, format, fileExists)
  {
  }

  /** Omitting the format is the same as asking for "pdf". */
  lemma DefaultFormatIsPdf(statementId: string, service: (string, string) -> Option<string>,
                           fileExists: string -> bool, fileLength: string -> nat)
    ensures DownloadStatement(statementId, None, service, fileExists, fileLength)
         == DownloadStatement(statementId, Some("pdf"), service, fileExists, fileLength)
    ensures DownloadStatement(statementId, Some(""), service, fileExists, fileLength)
         == DownloadStatement(statementId, Some("pdf"), service, fileExists, fileLength)
  {
  }

  /** Through the service, the status endpoint answers 404 exactly when neither the pdf nor the afp exists. */
  lemma StatusNotFoundIff(statementId: string, fileExists: string -> bool, now: string)
    ensures var r := StatusEndpoint(statementId, GetStatementStatus(statementId, fileExists, now));
      (r.code == NotFound <==> !fileExists(PdfPath(statementId)) && !fileExists(AfpPath(statementId)))
      && (r.code == Ok ==> r.body.status.statementId == statementId)
  {
  }

  /** Through the service, a download is served exactly when the format reads "pdf" ignoring case and the pdf exists. */
  lemma DownloadFoundIff(statementId: string, format: Option<string>, fileExists: string -> bool, fileLength: string -> nat)
    ensures DownloadStatement(statementId, format, FileService(fileExists), fileExists, fileLength).Attachment?
        <==> (EqualsIgnoreCase("pdf", EffectiveFormat(format)) && fileExists(PdfPath(statementId)))
  {
    ServiceCall(statementId, EffectiveFormat(format), fileExists);
  }

  /**
    * Through the service, every served download is the statement's pdf: it is
    * sent as application/pdf, named `<statementId>.pdf` in its
    * Content-Disposition (for an id without '/'), with the pdf's length. The
    * octet-stream branch is never taken.
    */
  lemma ServedDownloadIsPdf(statementId: string, format: Option<string>, fileExists: string -> bool, fileLength: string -> nat)
    requires '/' !in statementId
    ensures var r := DownloadStatement(statementId, format, FileService(fileExists), fileExists, fileLength);
      r.Attachment? ==>
        && r.mediaType == ApplicationPdf
        && r.contentDisposition == Disposition(statementId + ".pdf")
        && r.contentLength == fileLength(PdfPath(statementId))
  {
    var r := DownloadStatement(statementId, format, FileService(fileExists), fileExists, fileLength);
    ServiceCall(statementId, EffectiveFormat(format), fileExists);
    PdfFileName(statementId);
  }
}
