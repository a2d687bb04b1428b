# Credit-card e-statement core, modelled in Dafny

The system produces monthly credit-card statements and delivers them. Its
core has four parts:

- A batch job runs once per customer. It writes a per-customer XML file,
  generates an AFP document, converts it to PDF, assembles an e-mail and
  sends it. It counts how many customers succeeded and how many failed.
- A small SMTP client delivers the e-mail. It finds the recipient domain's
  mail exchangers (MX records, sorted by preference, with A records as a
  fallback), or uses a configured override server. It tries each host in
  turn and speaks the plain SMTP dialogue: greeting, HELO, MAIL FROM, RCPT
  TO, DATA, message, QUIT.
- A REST API reports where a statement stands and serves its PDF.
- A bearer-token interceptor guards that REST API.

## Modules

Each module is one file:

- `SmtpReply` (`smtp_reply.dfy`) covers how one reply is read.
  - Only the first line's code is compared, by prefix.
  - Continuation lines (a `-` after the code) are skipped.
  - A first line without the code is refused, whatever its length.
  - Once the first line has the code, the fourth character of each line is
    read (`charAt(3)`); a line shorter than four characters there throws.
- `SmtpData` (`smtp_data.dfy`) covers what the server receives after DATA.
  - The client writes the message verbatim, with no dot-stuffing, and then
    CR LF . CR LF.
  - The receiver ends the data at the first CR LF . CR LF. The CR LF that
    starts it ends the message's last line and is kept, as section 4.1.1.4
    of RFC 5321 says. So a message that already ends with CR LF arrives with
    one empty line added; only "." CR LF after it would leave it unchanged.
  - The receiver removes the first "." of every line, as section 4.5.2 of
    RFC 5321 says. So a line that begins with "." loses it, and a line made
    of a lone "." ends the message early.
- `SmtpSession` (`smtp_session.dfy`) is one connection's dialogue.
  - The network is a per-host script: does the connection open, which
    reply lines arrive, does writing the message succeed.
  - `Attempt` and its helpers are methods proved against the `Session`
    function.
- `MxLookup` (`mx_lookup.dfy`) covers `getMXHosts`.
  - DNS is an input.
  - The stable sort by preference is proved sorted and stable.
- `EmailDelivery` (`email_delivery.dfy`) holds the `EmailSender` class.
  - Its fields are the HELO domain, the sender address and the override
    server.
  - `SendEmail` routes, then tries the hosts in order. It is proved equal
    to the `Deliver` specification.
  - A port outside 0..65535 makes the socket constructor throw
    `IllegalArgumentException`. The catch of the host loop does not take
    it, so it escapes `sendEmail`.
- `Auth` (`auth_interceptor.dfy`) is `AuthInterceptor.preHandle` as a
  verdict: Allow, or a 401/403 status with its message.
- `StatementService` (`statement_service.dfy`) and `StatementApi`
  (`statement_api_controller.dfy`) are the status and download endpoints.
  - Whether a file exists is a predicate over paths.
- `Batch` (`batch_processor.dfy`) is `processBatch`.
  - The external steps are calls recorded in a trace. Whether each
    succeeds is an input: `succeeds(index, call)`.
  - The loop is a method proved equal to the `BatchRun` specification.
- `JavaStrings` (`java_strings.dfy`) holds the `java.lang.String`
  operations the code relies on.
- `Wrappers` (`wrappers.dfy`) holds `Option`.

### What happens after QUIT

Once the server has accepted the message, `sendEmail` sends QUIT and reads
the reply, but ignores the verdict (`CreditCard_E-statement/EmailSenderModule/src/main/java/com/example/emailsender/EmailSender.java:105-114`):

- If the reply to QUIT has the wrong code, `sendEmail` still returns true.
- If the stream ends before a reply, `sendEmail` still returns true.
- If reading the reply throws an `IOException`, control reaches the catch
  block of the host loop. The next host is then tried with a new session.
- If the reply line starts with 221 but is shorter than four characters, the
  `StringIndexOutOfBoundsException` escapes `sendEmail`.

`SmtpSession.QuitDecides` states this for one session, and
`EmailDelivery.AcceptedMessageResent` states what the host loop does next.

## Model

| member | source | states |
|---|---|---|
| SmtpReply.ExpectCode | CreditCard_E-statement/EmailSenderModule/src/main/java/com/example/emailsender/EmailSender.java:161-181 | the method's outcome and the unread input equal those of `ExpectReply`, the reply-reading specification |
| SmtpReply.FirstLineRefusal | CreditCard_E-statement/EmailSenderModule/src/main/java/com/example/emailsender/EmailSender.java:162-171 | a first line that is absent (end of stream) or does not start with the code is refused at once, and only that line is consumed |
| SmtpReply.CompleteFirstLineDecides | CreditCard_E-statement/EmailSenderModule/src/main/java/com/example/emailsender/EmailSender.java:162-180 | a reply whose first line is missing, or is at least four characters long without a "-" as its fourth character, is matched or refused; it never fails to be read and never throws |
| SmtpReply.MatchedIff | CreditCard_E-statement/EmailSenderModule/src/main/java/com/example/emailsender/EmailSender.java:162-180 | a reply matches exactly when the input begins with a complete reply for the code: a first line starting with the code, continuation lines, then a final line |
| SmtpReply.MatchedIsCompleteReply | CreditCard_E-statement/EmailSenderModule/src/main/java/com/example/emailsender/EmailSender.java:168-180 | a matched reply consumed exactly one complete reply, whose last line is not a continuation |
| SmtpReply.CompleteReplyMatches | CreditCard_E-statement/EmailSenderModule/src/main/java/com/example/emailsender/EmailSender.java:172-180 | when the first line starts with the code and a complete reply is available, the reply matches and exactly the lines after it stay unread |
| SmtpReply.ShortLineThrows | CreditCard_E-statement/EmailSenderModule/src/main/java/com/example/emailsender/EmailSender.java:172 | a continuation followed by a line shorter than four characters throws before any later line is read |
| SmtpReply.MultiLineGreeting | CreditCard_E-statement/EmailSenderModule/src/main/java/com/example/emailsender/EmailSender.java:172-180 | a three-line 250 reply is read to its end, and the next reply stays unread |
| SmtpData.EmptyLineAdded | CreditCard_E-statement/EmailSenderModule/src/main/java/com/example/emailsender/EmailSender.java:97-100 | a message that ends with CR LF and has no line beginning with "." reaches the receiver followed by CR LF: the CR LF . CR LF written after it adds one empty line |
| SmtpData.VerbatimRoundTrip | CreditCard_E-statement/EmailSenderModule/src/main/java/com/example/emailsender/EmailSender.java:97-100 | the terminator the code would need for such a message: followed by "." CR LF only, a message that ends with CR LF and has no line beginning with "." is received byte for byte |
| SmtpData.LoneDotLineTruncates | CreditCard_E-statement/EmailSenderModule/src/main/java/com/example/emailsender/EmailSender.java:97-100 | a message line made of a lone "." ends the received message early; the receiver keeps only the first line, "a" CR LF |
| SmtpData.LeadingDotLost | CreditCard_E-statement/EmailSenderModule/src/main/java/com/example/emailsender/EmailSender.java:97-100 | without dot-stuffing a message line ".x" CR LF reaches the receiver as "x" CR LF and then the added empty line: the leading dot is lost |
| SmtpSession.SendCommand | CreditCard_E-statement/EmailSenderModule/src/main/java/com/example/emailsender/EmailSender.java:70-71 | writing one command and checking its reply is one step of the session specification |
| SmtpSession.Attempt | CreditCard_E-statement/EmailSenderModule/src/main/java/com/example/emailsender/EmailSender.java:61-109 | one connection attempt ends with the outcome the `Session` specification gives, having written exactly the lines whose writes completed |
| SmtpSession.SendEnvelope | CreditCard_E-statement/EmailSenderModule/src/main/java/com/example/emailsender/EmailSender.java:88-109 | from MAIL FROM on, the commands written and the outcome are those of the session specification |
| SmtpSession.TransmitMessage | CreditCard_E-statement/EmailSenderModule/src/main/java/com/example/emailsender/EmailSender.java:94-109 | from DATA on, the writes and the outcome are those of the session specification |
| SmtpSession.SessionTrace | CreditCard_E-statement/EmailSenderModule/src/main/java/com/example/emailsender/EmailSender.java:68-109 | every session ends. What it writes is a prefix of the dialogue, and every reply but the last matched. Each line written follows a matched reply: the greeting's reply before HELO, and so on, so nothing is written after a refused reply. Delivered means the whole dialogue was written and seven replies were read. Refused means that, before QUIT, the last reply had the wrong code or the stream ended. Crashed means the last reply line was too short. |
| SmtpSession.QuitDecides | CreditCard_E-statement/EmailSenderModule/src/main/java/com/example/emailsender/EmailSender.java:103-114 | once the message is accepted, only the QUIT reply matters: a read failure means the attempt failed in transport; a short line means a crash; anything else, including a wrong code or the end of the stream, means delivered |
| SmtpSession.DeliveredMessageReceived | CreditCard_E-statement/EmailSenderModule/src/main/java/com/example/emailsender/EmailSender.java:94-103 | in a delivered session the bytes written after DATA are the serialized message followed by CR LF . CR LF; when the message ends with CR LF and no line of it begins with ".", the receiver gets the message followed by one empty line |
| SmtpSession.CooperativeDialogue | CreditCard_E-statement/EmailSenderModule/src/main/java/com/example/emailsender/EmailSender.java:68-103 | a server that connects, accepts writes and gives the expected codes in order is sent the whole dialogue, and the reply to QUIT is read from its seventh line on |
| SmtpSession.CooperativeServerDelivers | CreditCard_E-statement/EmailSenderModule/src/main/java/com/example/emailsender/EmailSender.java:68-109 | a server that connects, accepts writes and gives the expected codes in order, and then answers QUIT with a complete line or closes the connection, gets the message delivered with the full dialogue written |
| SmtpSession.ForwardingRecipientRefused | CreditCard_E-statement/EmailSenderModule/src/main/java/com/example/emailsender/EmailSender.java:90-92 | RCPT TO is checked against 250 only: a server that accepts the greeting, HELO and MAIL FROM and answers RCPT TO with 251 gets the attempt Refused, with HELO, MAIL FROM and RCPT TO written and nothing after |
| SmtpSession.AcceptedThenQuitReadFails | CreditCard_E-statement/EmailSenderModule/src/main/java/com/example/emailsender/EmailSender.java:105-114 | a concrete session: DATA is accepted, then reading the QUIT reply fails, so the attempt counts as a transport failure |
| MxLookup.Domain | CreditCard_E-statement/EmailSenderModule/src/main/java/com/example/emailsender/EmailSender.java:38 | the domain is what follows the first "@" of the recipient, or the whole address when there is no "@" |
| MxLookup.MxRecords | CreditCard_E-statement/EmailSenderModule/src/main/java/com/example/emailsender/EmailSender.java:126-131 | only MX records, and an MX record is kept exactly when it is in the answer (order and multiplicity are in the next two rows) |
| MxLookup.MxRecordsAppend | CreditCard_E-statement/EmailSenderModule/src/main/java/com/example/emailsender/EmailSender.java:126-131 | the MX records of an answer are the order-keeping filter: it distributes over concatenation and keeps a single record exactly when it is an MX record |
| MxLookup.MxRecordsKeepOrder | CreditCard_E-statement/EmailSenderModule/src/main/java/com/example/emailsender/EmailSender.java:126-131 | for every preference, the MX records with that preference keep their answer order, duplicates included |
| MxLookup.Insert | CreditCard_E-statement/EmailSenderModule/src/main/java/com/example/emailsender/EmailSender.java:135 | inserting into a list sorted by preference keeps the same records plus the new one |
| MxLookup.SortByPriority | CreditCard_E-statement/EmailSenderModule/src/main/java/com/example/emailsender/EmailSender.java:135 | sorting by preference keeps the records as a multiset |
| MxLookup.InsertSorted | CreditCard_E-statement/EmailSenderModule/src/main/java/com/example/emailsender/EmailSender.java:135 | inserting into a sorted list keeps it sorted |
| MxLookup.InsertStable | CreditCard_E-statement/EmailSenderModule/src/main/java/com/example/emailsender/EmailSender.java:135 | inserting after all records of equal preference keeps each preference's records in their order |
| MxLookup.SortByPriorityIsSorted | CreditCard_E-statement/EmailSenderModule/src/main/java/com/example/emailsender/EmailSender.java:135 | the sorted list is ordered by preference, lowest first |
| MxLookup.SortByPriorityIsStable | CreditCard_E-statement/EmailSenderModule/src/main/java/com/example/emailsender/EmailSender.java:135 | records with equal preference keep their answer order, as `List.sort` is stable |
| MxLookup.TargetsLength | CreditCard_E-statement/EmailSenderModule/src/main/java/com/example/emailsender/EmailSender.java:136-138 | there is one host per MX record, in list order |
| MxLookup.MxAnswerDecides | CreditCard_E-statement/EmailSenderModule/src/main/java/com/example/emailsender/EmailSender.java:125-139 | a successful answer with MX records decides the hosts: one per record, the exchanges of a preference-sorted permutation of the MX records in which, for every preference, the records appear as in the DNS answer |
| MxLookup.OrderedMxRecords | CreditCard_E-statement/EmailSenderModule/src/main/java/com/example/emailsender/EmailSender.java:126-135 | the MX records after the sort are ordered by preference, and the records of each preference keep their DNS answer order |
| MxLookup.AFallback | CreditCard_E-statement/EmailSenderModule/src/main/java/com/example/emailsender/EmailSender.java:141-157 | the A records are consulted exactly when the MX step yields no host; then the hosts are the A addresses of a successful answer, or none |
| MxLookup.GetMXHosts | CreditCard_E-statement/EmailSenderModule/src/main/java/com/example/emailsender/EmailSender.java:120-159 | the method returns the hosts `CandidateHosts` specifies: MX hosts, else A addresses; None for a name the resolver refuses |
| MxLookup.CollectMxHosts | CreditCard_E-statement/EmailSenderModule/src/main/java/com/example/emailsender/EmailSender.java:125-139 | the loop over the sorted MX records yields their exchanges in order |
| MxLookup.CollectAddresses | CreditCard_E-statement/EmailSenderModule/src/main/java/com/example/emailsender/EmailSender.java:143-157 | the loop over the A records yields their addresses in order |
| EmailDelivery.EmailSender.constructor | CreditCard_E-statement/EmailSenderModule/src/main/java/com/example/emailsender/EmailSender.java:25 | the default client: HELO domain "my-smtp-client.example.com", sender "sender@example.com", no override, port 25 |
| EmailDelivery.EmailSender.WithEnvelope | CreditCard_E-statement/EmailSenderModule/src/main/java/com/example/emailsender/EmailSender.java:27-30 | the given sender and HELO domain; no override, port 25 |
| EmailDelivery.EmailSender.SetOverrideSmtpServer | CreditCard_E-statement/EmailSenderModule/src/main/java/com/example/emailsender/EmailSender.java:32-35 | sets the override host and port and leaves the envelope alone |
| EmailDelivery.Route | CreditCard_E-statement/EmailSenderModule/src/main/java/com/example/emailsender/EmailSender.java:41-59 | a route has at least one host: exactly one with an override server, and port 25 without one |
| EmailDelivery.SendOutcome | CreditCard_E-statement/EmailSenderModule/src/main/java/com/example/emailsender/EmailSender.java:37-118 | `sendEmail` returns true exactly when the last attempt delivered and throws exactly when the last attempt crashed; with an override server it makes exactly one attempt |
| EmailDelivery.EmailSender.SendEmail | CreditCard_E-statement/EmailSenderModule/src/main/java/com/example/emailsender/EmailSender.java:37-118 | the result and the attempts made are those of `SendOutcome`: routing, then in-order delivery, where a port outside 0..65535 throws at the socket |
| EmailDelivery.TryHost | CreditCard_E-statement/EmailSenderModule/src/main/java/com/example/emailsender/EmailSender.java:59-114 | one host's attempt is the session specification run on that host's script; a port outside 0..65535 throws before anything is written |
| EmailDelivery.TryHosts | CreditCard_E-statement/EmailSenderModule/src/main/java/com/example/emailsender/EmailSender.java:58-117 | the host loop returns what `Deliver` specifies: stop at the first host that does not fail in transport |
| EmailDelivery.DeliverTriesInOrder | CreditCard_E-statement/EmailSenderModule/src/main/java/com/example/emailsender/EmailSender.java:58-117 | hosts are tried in order. Every attempt but the last failed in transport. It returns true exactly on a delivery, false when all hosts failed in transport or a reply was refused, and a throw on a crash. |
| EmailDelivery.RouteChoice | CreditCard_E-statement/EmailSenderModule/src/main/java/com/example/emailsender/EmailSender.java:41-59 | with an override the only host is the override host, on the override port; otherwise the `getMXHosts` hosts on port 25; an unparsable or empty route gives false with no attempt |
| EmailDelivery.DeliveredMeansFullDialogue | CreditCard_E-statement/EmailSenderModule/src/main/java/com/example/emailsender/EmailSender.java:68-109 | a true result means that the last host tried was sent the whole dialogue, and that every earlier host failed in transport |
| EmailDelivery.NoHostReachable | CreditCard_E-statement/EmailSenderModule/src/main/java/com/example/emailsender/EmailSender.java:61-66 | on a port the socket takes (0..65535), when no host accepts a connection, every host is tried, nothing is written, and the result is false |
| EmailDelivery.AcceptedMessageResent | CreditCard_E-statement/EmailSenderModule/src/main/java/com/example/emailsender/EmailSender.java:103-114 | when the first host was sent the whole dialogue but reading its QUIT reply failed, the loop goes on: the second attempt is a whole new session on the second host |
| EmailDelivery.InvalidPortThrows | CreditCard_E-statement/EmailSenderModule/src/main/java/com/example/emailsender/EmailSender.java:59-61 | a port outside 0..65535 ends the loop at the first host with an exception, nothing written, as the catch at line 111 does not take `IllegalArgumentException` |
| EmailDelivery.InvalidOverridePortThrows | CreditCard_E-statement/EmailSenderModule/src/main/java/com/example/emailsender/EmailSender.java:41-61 | an override server on such a port makes `sendEmail` throw after one attempt |
| EmailDelivery.CooperativeOverrideDelivers | CreditCard_E-statement/EmailSenderModule/src/main/java/com/example/emailsender/EmailSender.java:41-109 | an override server that accepts each step and then answers QUIT with a complete line makes `sendEmail` return true after one attempt that wrote the whole dialogue |
| Auth.Token | CreditCard_E-statement/RestApiModule/src/main/java/com/example/restapi/interceptor/AuthInterceptor.java:27 | the token is the header without its "Bearer " prefix |
| Auth.PreHandle | CreditCard_E-statement/RestApiModule/src/main/java/com/example/restapi/interceptor/AuthInterceptor.java:17-63 | every refusal is a 401 or a 403, and a 401 always carries the missing-token message |
| Auth.UnauthorizedIff | CreditCard_E-statement/RestApiModule/src/main/java/com/example/restapi/interceptor/AuthInterceptor.java:21-24 | the 401 answer is given exactly when the header is absent or does not start with "Bearer " |
| Auth.InvalidTokenIff | CreditCard_E-statement/RestApiModule/src/main/java/com/example/restapi/interceptor/AuthInterceptor.java:27-33 | "Invalid token." is given exactly for a bearer header whose token lacks the VALID_TOKEN_ prefix |
| Auth.ScopeDecides | CreditCard_E-statement/RestApiModule/src/main/java/com/example/restapi/interceptor/AuthInterceptor.java:42-57 | with a well-formed token the request passes exactly when the token contains the scope the endpoint needs: STATEMENT_READ for a status GET, STATEMENT_DOWNLOAD for a download GET, none otherwise |
| Auth.ScopeRefusal | CreditCard_E-statement/RestApiModule/src/main/java/com/example/restapi/interceptor/AuthInterceptor.java:42-54 | a well-formed token that is refused is refused with 403, and the message names the missing scope |
| Auth.MalformedHeaderNeverAllowed | CreditCard_E-statement/RestApiModule/src/main/java/com/example/restapi/interceptor/AuthInterceptor.java:21-33 | a header that is not a well-formed bearer token never passes and never gets a scope message |
| Auth.UnscopedRequestsPass | CreditCard_E-statement/RestApiModule/src/main/java/com/example/restapi/interceptor/AuthInterceptor.java:39-62 | any well-formed token passes a request that is not a GET on the statements API |
| StatementService.PdfPath | CreditCard_E-statement/RestApiModule/src/main/java/com/example/restapi/service/StatementService.java:13-20 | the pdf of a statement is a .pdf file in the batch's pdf directory, and the id is read back between the two, so distinct ids name distinct files |
| StatementService.AfpPath | CreditCard_E-statement/RestApiModule/src/main/java/com/example/restapi/service/StatementService.java:14-21 | the same for the .afp file in the afp directory |
| StatementService.GetStatementStatus | CreditCard_E-statement/RestApiModule/src/main/java/com/example/restapi/service/StatementService.java:17-30 | there is no status exactly when neither the pdf nor the afp exists; a status keeps the id and the timestamp |
| StatementService.GetStatementFile | CreditCard_E-statement/RestApiModule/src/main/java/com/example/restapi/service/StatementService.java:32-41 | a served file is the statement's pdf path, and that file exists |
| StatementService.PdfTakesPrecedence | CreditCard_E-statement/RestApiModule/src/main/java/com/example/restapi/service/StatementService.java:23-24 | when the pdf exists the status is "Converted_To_PDF" with its details, whatever the afp |
| StatementService.AfpAwaitingConversion | CreditCard_E-statement/RestApiModule/src/main/java/com/example/restapi/service/StatementService.java:25-26 | with only the afp the status is "AFP_Generated", awaiting conversion |
| StatementService.StatusReflectsFiles | CreditCard_E-statement/RestApiModule/src/main/java/com/example/restapi/service/StatementService.java:20-29 | the status names the pdf exactly when the pdf exists, and the afp exactly when only the afp exists |
| StatementService.FileServedIff | CreditCard_E-statement/RestApiModule/src/main/java/com/example/restapi/service/StatementService.java:34-40 | a file is served exactly when the format is "pdf" in any letter case and the pdf exists |
| StatementService.AfpNeverServed | CreditCard_E-statement/RestApiModule/src/main/java/com/example/restapi/service/StatementService.java:32-41 | the afp is never served, even when it is the only file |
| StatementApi.StatusEndpoint | CreditCard_E-statement/RestApiModule/src/main/java/com/example/restapi/controller/StatementApiController.java:23-32 | 200 with the service's status, or 404 with STATEMENT_NOT_FOUND and a message naming the id exactly when the service has none |
| StatementApi.EffectiveFormat | CreditCard_E-statement/RestApiModule/src/main/java/com/example/restapi/controller/StatementApiController.java:37 | a non-empty format parameter is kept as given; the effective format is never empty |
| StatementApi.DownloadStatement | CreditCard_E-statement/RestApiModule/src/main/java/com/example/restapi/controller/StatementApiController.java:34-64 | an attachment exactly when the service names a file that exists. The attachment carries that file, its length, the disposition with the file's last path segment, and application/pdf exactly when the format is "pdf" ignoring case (otherwise application/octet-stream). |
| StatementApi.DefaultFormatIsPdf | CreditCard_E-statement/RestApiModule/src/main/java/com/example/restapi/controller/StatementApiController.java:37 | a download with no format parameter, or an empty one, is answered as one asking for "pdf" |
| StatementApi.StatusNotFoundIff | CreditCard_E-statement/RestApiModule/src/main/java/com/example/restapi/controller/StatementApiController.java:25-31 | the status endpoint answers 404 exactly when neither file exists |
| StatementApi.DownloadFoundIff | CreditCard_E-statement/RestApiModule/src/main/java/com/example/restapi/controller/StatementApiController.java:39-41 | the download endpoint serves a file exactly when the format is "pdf" ignoring case and the pdf exists |
| StatementApi.ServedDownloadIsPdf | CreditCard_E-statement/RestApiModule/src/main/java/com/example/restapi/controller/StatementApiController.java:41-57 | for an id without "/", a served download is the pdf as application/pdf, named "<id>.pdf" in the disposition, with the pdf's length |
| JavaStrings.IndexOf | CreditCard_E-statement/EmailSenderModule/src/main/java/com/example/emailsender/EmailSender.java:38 | the first index where the character occurs, or -1 when it does not occur |
| JavaStrings.EqualsIgnoreCase | CreditCard_E-statement/RestApiModule/src/main/java/com/example/restapi/service/StatementService.java:34 | equal strings are equal ignoring case, and strings equal ignoring case have the same length |
| JavaStrings.PdfInAnyCase | CreditCard_E-statement/RestApiModule/src/main/java/com/example/restapi/service/StatementService.java:34 | a format equals "pdf" ignoring case exactly when it is one of the eight spellings of "pdf" in upper and lower case |
| JavaStrings.RemoveAll | CreditCard_E-statement/BatchProcessingModule/src/main/java/com/example/batchprocessor/BatchProcessor.java:180 | `replace("-", "")`: the result has no "-", holds exactly the other characters of the input, and is the input itself when there is no "-" |
| JavaStrings.RemoveAllAppend | CreditCard_E-statement/BatchProcessingModule/src/main/java/com/example/batchprocessor/BatchProcessor.java:180 | removing "-" works character by character: it distributes over concatenation and drops one character exactly when it is "-", so the characters kept stay in order |
| JavaStrings.LastSegment | CreditCard_E-statement/RestApiModule/src/main/java/com/example/restapi/controller/StatementApiController.java:45 | `file.getName()` of `java.io.File`: a suffix of the path with no "/", preceded by "/" whenever it is not the whole path |
| JavaStrings.LastSegmentAfterSlash | CreditCard_E-statement/RestApiModule/src/main/java/com/example/restapi/controller/StatementApiController.java:45 | the file name of a directory ending in "/" plus a name without "/" is that name |
| Batch.PipelineShape | CreditCard_E-statement/BatchProcessingModule/src/main/java/com/example/batchprocessor/BatchProcessor.java:187-233 | the steps of an item run in order up to the first failure. The item succeeds exactly when every step succeeds. On failure the failing step is the last one performed. |
| Batch.PipelineStopsAt | CreditCard_E-statement/BatchProcessingModule/src/main/java/com/example/batchprocessor/BatchProcessor.java:187-233 | the first failing step ends the item: exactly the steps up to it run |
| Batch.TryItemSteps | CreditCard_E-statement/BatchProcessingModule/src/main/java/com/example/batchprocessor/BatchProcessor.java:187-233 | the item's steps run as `Pipeline` specifies; the temporary XML path is set exactly when writing it succeeded |
| Batch.TryConvertAndSend | CreditCard_E-statement/BatchProcessingModule/src/main/java/com/example/batchprocessor/BatchProcessor.java:196-222 | conversion, assembly, writing the .eml file and sending run in order up to the first failure |
| Batch.ProcessItem | CreditCard_E-statement/BatchProcessingModule/src/main/java/com/example/batchprocessor/BatchProcessor.java:175-241 | one item's calls and verdict are those of `ItemRun`: the steps, then deleting the temporary XML exactly when it was written |
| Batch.ProcessBatch | CreditCard_E-statement/BatchProcessingModule/src/main/java/com/example/batchprocessor/BatchProcessor.java:146-245 | the counts and the calls made are those of `BatchRun`: the items in order, each run in full |
| Batch.CountsAddUp | CreditCard_E-statement/BatchProcessingModule/src/main/java/com/example/batchprocessor/BatchProcessor.java:168-233 | every item is counted once, as a success or a failure |
| Batch.NoFailureIff | CreditCard_E-statement/BatchProcessingModule/src/main/java/com/example/batchprocessor/BatchProcessor.java:224-233 | the failure count is zero exactly when every item succeeds |
| Batch.EarlierItemsFirst | CreditCard_E-statement/BatchProcessingModule/src/main/java/com/example/batchprocessor/BatchProcessor.java:175-245 | the calls of the first n items come before all later calls |
| Batch.EveryItemRuns | CreditCard_E-statement/BatchProcessingModule/src/main/java/com/example/batchprocessor/BatchProcessor.java:175-245 | the calls of item i follow those of the items before it, whether or not an earlier item failed |
| Batch.ItemStartsWithXml | CreditCard_E-statement/BatchProcessingModule/src/main/java/com/example/batchprocessor/BatchProcessor.java:189-190 | every item first writes its temporary XML file |
| Batch.ItemSucceedsIff | CreditCard_E-statement/BatchProcessingModule/src/main/java/com/example/batchprocessor/BatchProcessor.java:187-224 | an item succeeds exactly when every one of its six steps succeeds |
| Batch.FirstFailureEndsItem | CreditCard_E-statement/BatchProcessingModule/src/main/java/com/example/batchprocessor/BatchProcessor.java:187-241 | after the first failing step, only the deletion of the temporary XML follows, and only when that file was written |
| Batch.SuccessfulItemCalls | CreditCard_E-statement/BatchProcessingModule/src/main/java/com/example/batchprocessor/BatchProcessor.java:187-241 | a successful item makes exactly its six steps, then deletes its temporary XML |
| Batch.BaseNameChars | CreditCard_E-statement/BatchProcessingModule/src/main/java/com/example/batchprocessor/BatchProcessor.java:180 | the base name starts with the customer id and "_", then holds exactly the date's characters other than "-"; it holds a "-" only when the customer id does |
| Batch.BaseNameShape | CreditCard_E-statement/BatchProcessingModule/src/main/java/com/example/batchprocessor/BatchProcessor.java:180 | for a date "y-m-d" with no "-" inside y, m or d, the base name is the customer id, "_", then y, m and d run together |
| Batch.BaseNameExample | CreditCard_E-statement/BatchProcessingModule/src/main/java/com/example/batchprocessor/BatchProcessor.java:180 | customer C001 with the date 2024-03-10 gets the base name C001_20240310 |
| Batch.OutputPaths | CreditCard_E-statement/BatchProcessingModule/src/main/java/com/example/batchprocessor/BatchProcessor.java:138-184 | the afp, pdf and eml files lie in their own directories under output_batch with their own extensions and give the base name back; the temporary XML file gives its UUID back |
| Batch.OutputFilesDistinct | CreditCard_E-statement/BatchProcessingModule/src/main/java/com/example/batchprocessor/BatchProcessor.java:138-184 | an item's four files are distinct, items with different base names never share an output file, and different UUIDs give different temporary XML files |
| Batch.SubjectNamesDate | CreditCard_E-statement/BatchProcessingModule/src/main/java/com/example/batchprocessor/BatchProcessor.java:206 | the e-mail subject is "Your Statement for " followed by the statement date as given |
| Batch.ServiceFindsBatchPdf | CreditCard_E-statement/BatchProcessingModule/src/main/java/com/example/batchprocessor/BatchProcessor.java:183 | the REST service's pdf path for a base name is the batch's pdf output seen from the REST module's directory |
| Batch.ServiceFindsBatchAfp | CreditCard_E-statement/BatchProcessingModule/src/main/java/com/example/batchprocessor/BatchProcessor.java:182 | the same holds for the afp |
| Batch.XmlSlots | CreditCard_E-statement/BatchProcessingModule/src/main/java/com/example/batchprocessor/BatchProcessor.java:83-136 | `StatementXml`, the text `generateItemSpecificXml` writes, carries the account number, the statement date, the name and the barcode, each in its element |

## Left out

- Sockets, DNS and time are inputs, not live services.
  - A host is a script: does it connect, which reply lines arrive, do
    writes succeed.
  - DNS is a function from a domain to an MX answer and an A answer.
  - Connect and read timeouts show up only as failed connections or read
    failures.
- EmailDelivery.AttemptAt: the network maps a host and port to one script.
  So every attempt on the same host and port behaves alike. When an MX
  answer names one exchange twice, the model cannot fail the first
  connection and accept the second, as two fresh `new Socket` calls can.
- SmtpSession.Perform: a `writeTo` or write that throws records no `Data`
  item, although part of the message may already be on the wire. `sent`
  lists only the writes that completed.
- Text encoding is not modelled.
  - Commands and reply lines are strings.
  - The message is the byte sequence `writeTo` produces, given as part of
    the message value.
  - The UTF-8 encoding of the writer and the platform line separator of
    `println` are not modelled.
- Log output is not modelled. This covers `System.out`/`System.err`,
  SLF4J logging and the correlation ids of `LoggerUtil`.
- EmailSender's `main` method is not modelled.
- The set-up at the start of `processBatch` is not modelled. It creates the
  output directories (BatchProcessor.java:153-158) and parses the input file
  with Gson (:160-166). An IOException from either escapes `processBatch`;
  a read failure escapes as PermanentException. The model starts from the
  parsed item list.
- The batch's `main` is not modelled, nor is the constructor wiring that
  points the e-mail sender at localhost:1025.
- AfpGenerator, AfpConversionService, EmailAssembler and LoggerUtil are not
  part of this model.
  - The batch records each of their calls in a trace.
  - Whether a call succeeds is an input decided per item and call.
  - The e-mail sent by the batch is judged by that input too, not by the
    `EmailDelivery` model.
- The uuid in the temporary XML name is an input, one per item position.
- Batch.TryItemSteps: records the XML write as a call that holds the item,
  not the text written. `Batch.XmlSlots` states separately which values
  the text carries.
- Batch.XmlSlots: the values are put into the XML unescaped, as the code
  does; a value holding `<` or `&` makes malformed XML.
- Batch.ProcessItem: a failing deletion of the temporary XML is not
  modelled. The code only logs it.
- A null item field or a null message is not modelled. Neither are
  `Error` throwables other than the exceptions the code catches.
- StatementService.GetStatementFile: path normalisation is not modelled.
  - An id holding "/" or ".." names the path as written.
  - The file system may change between the existence check and the read.
- `LocalDateTime.now()` is an input string.
- Spring's handler mapping, the response objects and header names are not
  modelled. They are reduced to status codes, body values and the three
  headers the download sets.
- The Go services in the repository are not part of this model.
- EmailDelivery.EmailSender.SendEmail: the body is split into several
  methods, which are modelled one by one:
  - `TryHosts` and `TryHost`;
  - `SmtpSession.Attempt`, `SendEnvelope` and `TransmitMessage`.
- MxLookup.GetMXHosts: modelled as two loops, `CollectMxHosts` and
  `CollectAddresses`.
- The `getFrom()` value read from the message is not modelled. The code
  reads it and then discards it.
- EmailDelivery.EmailSender.SendEmail: a failure to close the socket or its
  streams at the end of the try-with-resources (lines 61-64 of
  `EmailSender.java`) is not modelled. In the code an `IOException` there
  reaches the catch at line 111 even after `return true`, and the next host
  is tried.
- Removing the whole temp_xml directory at the end of the batch (lines
  249-258 of `BatchProcessor.java`) is not modelled. It is file-system
  clean-up whose failure is only logged.
