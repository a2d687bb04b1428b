/**
  * `BatchProcessor.processBatch`: every item of a batch runs the pipeline
  * generate XML and AFP -> convert to PDF -> assemble and save the email ->
  * send it, stopping at the item's first failure, and the batch counts
  * successes and failures. The collaborators (file writes, AFP generation,
  * conversion, assembly, sending) are one oracle that says whether a given
  * call succeeds for the item at a given position; the model records the
  * calls in the order they are made. The UUID of an item's temporary XML
  * file is an input per position.
  */
module Batch {
  import opened Wrappers
  import opened JavaStrings
  import StatementService

  /** One entry of the batch input (`BatchItem`). */
  datatype BatchItem = BatchItem(customerId: string, name: string, statementDate: string, email: string)

  /**
    * A call the processor makes on its collaborators or on the file system.
    * `WriteXml(path, item)` writes `StatementXml(item)` to `path`.
    */
  datatype Call =
    | WriteXml(path: string, item: BatchItem)
    | GenerateAfp(template: string, xmlPath: string, afpPath: string)
    | ConvertToPdf(afpPath: string, pdfPath: string)
    | AssembleEmail(to: string, subject: string, name: string, statementDate: string, pdfPath: string)
    | WriteEml(emlPath: string)
    | SendEmail(to: string)
    | DeleteXml(path: string)

  const BaseOutputDir := "output_batch"
  const AfpTemplate := "../AFPGenerationModule/src/main/resources/template.fo"

  /** `customerId + "_" + statementDate.replace("-", "")` */
  function BaseName(item: BatchItem): string {
    item.customerId + "_" + RemoveAll(item.statementDate, '-')
  }

  const AfpOutputDir := BaseOutputDir + "/afp/"
  const PdfOutputDir := BaseOutputDir + "/pdf/"
  const EmlOutputDir := BaseOutputDir + "/eml/"
  const TempXmlDir := BaseOutputDir + "/temp_xml/"

  function AfpOutputPath(item: BatchItem): string {
    AfpOutputDir + BaseName(item) + ".afp"
  }

  function PdfOutputPath(item: BatchItem): string {
    PdfOutputDir + BaseName(item) + ".pdf"
  }

  function EmlOutputPath(item: BatchItem): string {
    EmlOutputDir + BaseName(item) + ".eml"
  }

  /** The temporary XML file of an item, made unique by a UUID. */
  function TempXmlPath(item: BatchItem, uuid: string): string {
    TempXmlDir + BaseName(item) + "_" + uuid + ".xml"
  }

  function Subject(item: BatchItem): string {
    "Your Statement for " + item.statementDate
  }

  /** `<tag>value</tag>` */
  function Element(tag: string, value: string): string {
    "<" + tag + ">" + value + "</" + tag + ">"
  }

  const BarcodeSuffix := "DUE20240820AMT12345"

  const XmlHead := "<statementData>\n  <accountDetails>\n    <bankName>Global Trust Bank (Batch)</bankName>\n    "
  const XmlAfterAccount := "\n  </accountDetails>\n  <statementDetails>\n    "
  const XmlAfterDate :=
    "\n    <paymentDueDate>2024-08-20</paymentDueDate>\n    <totalAmountDue>USD 123.45</totalAmountDue>\n"
    + "  </statementDetails>\n  <customer>\n    "
  const XmlAfterName :=
    "\n    <address>\n      <street>123 Batch St</street>\n      <city>Processville</city>\n"
    + "      <state>Workflow</state>\n      <zipCode>98765</zipCode>\n    </address>\n  </customer>\n"
    + "  <banner>\n    <imageUrl>http://example.com/images/batch_banner.png</imageUrl>\n"
    + "    <altText>Batch Processed Statement</altText>\n  </banner>\n"
    + "  <summary>\n    <previousBalance>USD 50.00</previousBalance>\n"
    + "    <paymentsReceived>USD 20.00</paymentsReceived>\n    <newCharges>USD 93.45</newCharges>\n"
    + "    <newBalance>USD 123.45</newBalance>\n  </summary>\n"
    + "  <transactions>\n    <transaction>\n      <date>2024-07-15</date>\n"
    + "      <description>Batch Item Purchase 1</description>\n      <amount>USD 50.00</amount>\n"
    + "    </transaction>\n    <transaction>\n      <date>2024-07-20</date>\n"
    + "      <description>Batch Item Service Fee</description>\n      <amount>USD 43.45</amount>\n"
    + "    </transaction>\n  </transactions>\n"
    + "  <notices>\n    <noticeText>This is a batch generated statement. Please review details.</noticeText>\n"
    + "  </notices>\n  <paymentSlip>\n    "
  const XmlTail :=
    "\n  </paymentSlip>\n  <termsAndConditions>\n"
    + "    <footerText>Batch terms and conditions apply. Visit example.com/batch-terms.</footerText>\n"
    + "  </termsAndConditions>\n</statementData>"

  /**
    * The XML `generateItemSpecificXml` writes: a fixed template with four
    * slots filled, unescaped, by the customer id (account number), the
    * statement date, the name and the customer id again (barcode prefix).
    */
  function StatementXml(item: BatchItem): string {
    XmlHead + Element("accountNumber", item.customerId)
    + XmlAfterAccount + Element("statementDate", item.statementDate)
    + XmlAfterDate + Element("name", item.name)
    + XmlAfterName + Element("barcodeData", item.customerId + BarcodeSuffix)
    + XmlTail
  }

  /** The six steps of one item, in the order `processBatch` makes them. */
  function ItemSteps(item: BatchItem, xmlPath: string): seq<Call> {
    [ WriteXml(xmlPath, item), GenerateAfp(AfpTemplate, xmlPath, AfpOutputPath(item)) ] + DeliverySteps(item)
  }

  /** The steps after the AFP exists: convert, assemble, save the .eml, send. */
  function DeliverySteps(item: BatchItem): seq<Call> {
    [ ConvertToPdf(AfpOutputPath(item), PdfOutputPath(item)),
      AssembleEmail(item.email, Subject(item), item.name, item.statementDate, PdfOutputPath(item)),
      WriteEml(EmlOutputPath(item)),
      SendEmail(item.email) ]
  }

  /** The calls a pipeline makes, and whether all of them succeeded. */
  datatype StageRun = StageRun(performed: seq<Call>, succeeded: bool)

  /** Runs `steps` in order for the item at `index` until one fails. */
  function Pipeline(index: nat, steps: seq<Call>, succeeds: (nat, Call) -> bool): StageRun {
    if |steps| == 0 then StageRun([], true)
    else if !succeeds(index, steps[0]) then StageRun([steps[0]], false)
    else
      var rest := Pipeline(index, steps[1..], succeeds);
      StageRun([steps[0]] + rest.performed, rest.succeeded)
  }

  /**
    * The calls a pipeline makes are a prefix of its steps, every one but a
    * failing last one succeeded, and the pipeline succeeds exactly when
    * every step does.
    */
  lemma PipelineShape(index: nat, steps: seq<Call>, succeeds: (nat, Call) -> bool)
    ensures var r := Pipeline(index, steps, succeeds);
      && |r.performed| <= |steps| && r.performed == steps[..|r.performed|]
      && (r.succeeded <==> forall k | 0 <= k < |steps| :: succeeds(index, steps[k]))
      && (r.succeeded ==> r.performed == steps)
      && (!r.succeeded ==>
            && |r.performed| >= 1
            && !succeeds(index, r.performed[|r.performed| - 1])
            && forall k | 0 <= k < |r.performed| - 1 :: succeeds(index, r.performed[k]))
  {
    PipelinePrefix(index, steps, succeeds);
    PipelineFailure(index, steps, succeeds);
  }

  /** The calls made are a prefix of the steps, all of them exactly when every step succeeds. */
  lemma {:induction false} PipelinePrefix(index: nat, steps: seq<Call>, succeeds: (nat, Call) -> bool)
    ensures var r := Pipeline(index, steps, succeeds);
      && |r.performed| <= |steps| && r.performed == steps[..|r.performed|]
      && (r.succeeded <==> forall k | 0 <= k < |steps| :: succeeds(index, steps[k]))
      && (r.succeeded ==> r.performed == steps)
    decreases |steps|
  {
    if |steps| > 0 && succeeds(index, steps[0]) {
      PipelinePrefix(index, steps[1..], succeeds);
      var rest := Pipeline(index, steps[1..], succeeds);
      assert Pipeline(index, steps, succeeds) == StageRun([steps[0]] + rest.performed, rest.succeeded);
      assert [steps[0]] + rest.performed == steps[..|rest.performed| + 1] by {
        assert [steps[0]] + steps[1..][..|rest.performed|] == steps[..|rest.performed| + 1];
      }
      assert rest.succeeded <==> forall k | 0 <= k < |steps| :: succeeds(index, steps[k]) by {
        assert forall k | 1 <= k < |steps| :: steps[k] == steps[1..][k - 1];
      }
    } else if |steps| > 0 {
      assert steps[..1] == [steps[0]];
    }
  }

  /** A failed pipeline ends with the failing call, after calls that all succeeded. */
  lemma {:induction false} PipelineFailure(index: nat, steps: seq<Call>, succeeds: (nat, Call) -> bool)
    ensures var r := Pipeline(index, steps, succeeds);
      !r.succeeded ==>
        && |r.performed| >= 1
        && !succeeds(index, r.performed[|r.performed| - 1])
        && forall k | 0 <= k < |r.performed| - 1 :: succeeds(index, r.performed[k])
    decreases |steps|
  {
    if |steps| > 0 && succeeds(index, steps[0]) {
      PipelineFailure(index, steps[1..], succeeds);
      var rest := Pipeline(index, steps[1..], succeeds);
      var performed := [steps[0]] + rest.performed;
      if !rest.succeeded {
        assert performed[|performed| - 1] == rest.performed[|rest.performed| - 1];
        assert forall k | 1 <= k < |performed| :: performed[k] == rest.performed[k - 1];
      }
    }
  }

  /** What one item did: the calls made, and whether it counts as a success. */
  datatype ItemOutcome = ItemOutcome(calls: seq<Call>, succeeded: bool)

  /**
    * One iteration of the item loop: the pipeline, then (the `finally`
    * block) deleting the temporary XML if it was written.
    */
  function ItemRun(index: nat, item: BatchItem, uuid: string, succeeds: (nat, Call) -> bool): ItemOutcome {
    var xml := TempXmlPath(item, uuid);
    var run := Pipeline(index, ItemSteps(item, xml), succeeds);
    var cleanup := if succeeds(index, WriteXml(xml, item)) then [DeleteXml(xml)] else [];
    ItemOutcome(run.performed + cleanup, run.succeeded)
  }

  /** The end state of the item loop: the two counters and every call made. */
  datatype Summary = Summary(successCount: nat, failureCount: nat, calls: seq<Call>)

  /**
    * The item loop over `items`, where `run(i, item)` is what the item at
    * position `i` does: item after item, each adding to one counter and
    * appending its calls.
    */
  function BatchRun(items: seq<BatchItem>, run: (nat, BatchItem) -> ItemOutcome): Summary
    decreases |items|
  {
    if |items| == 0 then Summary(0, 0, [])
    else
      var n := |items| - 1;
      var before := BatchRun(items[..n], run);
      var item := run(n, items[n]);
      Summary(before.successCount + (if item.succeeded then 1 else 0),
              before.failureCount + (if item.succeeded then 0 else 1),
              before.calls + item.calls)
  }

  /** What each item of `processBatch` does: `ItemRun`, with the UUID drawn for its position. */
  function ItemRunner(uuid: nat -> string, succeeds: (nat, Call) -> bool): (nat, BatchItem) -> ItemOutcome {
    (index: nat, item: BatchItem) => ItemRun(index, item, uuid(index), succeeds)
  }

  lemma RunnerCall(uuid: nat -> string, succeeds: (nat, Call) -> bool, index: nat, item: BatchItem)
    ensures ItemRunner(uuid, succeeds)(index, item) == ItemRun(index, item, uuid(index), succeeds)
  {
  }

  /** A pipeline whose step `k` is the first to fail makes exactly the steps up to and including `k`. */
  lemma PipelineStopsAt(index: nat, steps: seq<Call>, succeeds: (nat, Call) -> bool, k: nat)
    requires k < |steps| && !succeeds(index, steps[k])
    requires forall j | 0 <= j < k :: succeeds(index, steps[j])
    ensures Pipeline(index, steps, succeeds) == StageRun(steps[..k + 1], false)
  {
    PipelineShape(index, steps, succeeds);
    var r := Pipeline(index, steps, succeeds);
    assert !r.succeeded;
  }

  /** Once the first two steps succeeded, the pipeline goes on with the rest. */
  lemma PipelineAfterTwo(index: nat, steps: seq<Call>, succeeds: (nat, Call) -> bool)
    requires |steps| >= 2 && succeeds(index, steps[0]) && succeeds(index, steps[1])
    ensures var rest := Pipeline(index, steps[2..], succeeds);
      Pipeline(index, steps, succeeds) == StageRun(steps[..2] + rest.performed, rest.succeeded)
  {
    assert steps[1..][1..] == steps[2..];
    assert [steps[0]] + ([steps[1]] + Pipeline(index, steps[2..], succeeds).performed)
        == steps[..2] + Pipeline(index, steps[2..], succeeds).performed;
  }

  /**
    * The `try` block of one item, step a: write the item's XML (recording its
    * path) and generate the AFP; the first failure skips everything after it.
    */
  method TryItemSteps(index: nat, item: BatchItem, xml: string, succeeds: (nat, Call) -> bool)
    returns (itemFailed: bool, calls: seq<Call>, itemSpecificXmlPath: Option<string>)
    ensures StageRun(calls, !itemFailed) == Pipeline(index, ItemSteps(item, xml), succeeds)
    ensures itemSpecificXmlPath == if succeeds(index, WriteXml(xml, item)) then Some(xml) else None
  {
    ghost var steps := ItemSteps(item, xml);
    itemSpecificXmlPath := None;
    var write := WriteXml(xml, item);
    calls := [write];
    if !succeeds(index, write) {
      PipelineStopsAt(index, steps, succeeds, 0);
      itemFailed := true;
      return;
    }
    itemSpecificXmlPath := Some(xml);
    var generate := GenerateAfp(AfpTemplate, xml, AfpOutputPath(item));
    calls := calls + [generate];
    if !succeeds(index, generate) {
      PipelineStopsAt(index, steps, succeeds, 1);
      itemFailed := true;
      return;
    }
    var rest;
    itemFailed, rest := TryConvertAndSend(index, item, succeeds);
    assert steps[2..] == DeliverySteps(item);
    PipelineAfterTwo(index, steps, succeeds);
    calls := calls + rest;
  }

  /**
    * The `try` block of one item, steps b to d: convert the AFP to PDF,
    * assemble the email and save it as .eml, then send it; the first failure
    * skips everything after it.
    */
  method TryConvertAndSend(index: nat, item: BatchItem, succeeds: (nat, Call) -> bool)
    returns (itemFailed: bool, calls: seq<Call>)
    ensures StageRun(calls, !itemFailed) == Pipeline(index, DeliverySteps(item), succeeds)
  {
    ghost var steps := DeliverySteps(item);
    var convert := ConvertToPdf(AfpOutputPath(item), PdfOutputPath(item));
    calls := [convert];
    if !succeeds(index, convert) {
      PipelineStopsAt(index, steps, succeeds, 0);
      itemFailed := true;
      return;
    }
    var assemble := AssembleEmail(item.email, Subject(item), item.name, item.statementDate, PdfOutputPath(item));
    calls := calls + [assemble];
    if !succeeds(index, assemble) {
      PipelineStopsAt(index, steps, succeeds, 1);
      itemFailed := true;
      return;
    }
    var save := WriteEml(EmlOutputPath(item));
    calls := calls + [save];
    if !succeeds(index, save) {
      PipelineStopsAt(index, steps, succeeds, 2);
      itemFailed := true;
      return;
    }
    var send := SendEmail(item.email);
    calls := calls + [send];
    if !succeeds(index, send) {
      PipelineStopsAt(index, steps, succeeds, 3);
      itemFailed := true;
      return;
    }
    itemFailed := false;
    assert calls == steps;
    PipelineShape(index, steps, succeeds);
  }

  /**
    * One iteration of the item loop: the `try` block, then the `finally`
    * block deleting the temporary XML when its path was recorded.
    */
  method ProcessItem(index: nat, item: BatchItem, uuid: string, succeeds: (nat, Call) -> bool)
    returns (succeeded: bool, calls: seq<Call>)
    ensures ItemOutcome(calls, succeeded) == ItemRun(index, item, uuid, succeeds)
  {
    var xml := TempXmlPath(item, uuid);
    var itemFailed, itemSpecificXmlPath;
    itemFailed, calls, itemSpecificXmlPath := TryItemSteps(index, item, xml, succeeds);
    if itemSpecificXmlPath.Some? {
      calls := calls + [DeleteXml(itemSpecificXmlPath.value)];
    }
    succeeded := !itemFailed;
  }

  /**
    * `processBatch` over the items read from the input file: every item is
    * processed in list order, and each one adds to exactly one counter.
    */
  method ProcessBatch(items: seq<BatchItem>, uuid: nat -> string, succeeds: (nat, Call) -> bool)
    returns (successCount: nat, failureCount: nat, calls: seq<Call>)
    ensures Summary(successCount, failureCount, calls) == BatchRun(items, ItemRunner(uuid, succeeds))
  {
    ghost var run := ItemRunner(uuid, succeeds);
    successCount, failureCount, calls := 0, 0, [];
    for i := 0 to |items|
      invariant Summary(successCount, failureCount, calls) == BatchRun(items[..i], run)
    {
      var itemSucceeded, itemCalls := ProcessItem(i, items[i], uuid(i), succeeds);
      RunnerCall(uuid, succeeds, i, items[i]);
      if itemSucceeded {
        successCount := successCount + 1;
      } else {
        failureCount := failureCount + 1;
      }
      calls := calls + itemCalls;
      assert items[..i + 1][..i] == items[..i];
    }
    assert items[..|items|] == items;
  }

  /** Every item adds to exactly one counter: the two counts add up to the number of items. */
  lemma {:induction false} CountsAddUp(items: seq<BatchItem>, run: (nat, BatchItem) -> ItemOutcome)
    ensures var s := BatchRun(items, run); s.successCount + s.failureCount == |items|
    decreases |items|
  {
    if |items| > 0 {
      CountsAddUp(items[..|items| - 1], run);
    }
  }

  /** No failure is counted exactly when every item succeeded. */
  lemma {:induction false} NoFailureIff(items: seq<BatchItem>, run: (nat, BatchItem) -> ItemOutcome)
    ensures BatchRun(items, run).failureCount == 0 <==> forall i | 0 <= i < |items| :: run(i, items[i]).succeeded
    decreases |items|
  {
    if |items| > 0 {
      var n := |items| - 1;
      NoFailureIff(items[..n], run);
      assert forall i | 0 <= i < n :: items[..n][i] == items[i];
    }
  }

  /** The calls of the first `n` items are the start of the calls of the whole batch. */
  lemma {:induction false} EarlierItemsFirst(items: seq<BatchItem>, run: (nat, BatchItem) -> ItemOutcome, n: nat)
    requires n <= |items|
    ensures var before := BatchRun(items[..n], run).calls;
      var all := BatchRun(items, run).calls;
      |before| <= |all| && before == all[..|before|]
    decreases |items|
  {
    if n < |items| {
      var m := |items| - 1;
      assert items[..m][..n] == items[..n];
      EarlierItemsFirst(items[..m], run, n);
    } else {
      assert items[..n] == items;
    }
  }

  /**
    * Items run in list order and a failed item does not stop later ones:
    * the calls of item `i` come right after those of the items before it,
    * whatever became of those.
    */
  lemma EveryItemRuns(items: seq<BatchItem>, run: (nat, BatchItem) -> ItemOutcome, i: nat)
    requires i < |items|
    ensures var before := BatchRun(items[..i], run).calls;
      var mine := run(i, items[i]).calls;
      var all := BatchRun(items, run).calls;
      |before| + |mine| <= |all| && all[|before|..|before| + |mine|] == mine
  {
    var before := BatchRun(items[..i], run).calls;
    var mine := run(i, items[i]).calls;
    var upTo := BatchRun(items[..i + 1], run).calls;
    assert items[..i + 1][..i] == items[..i];
    assert upTo == before + mine;
    EarlierItemsFirst(items, run, i + 1);
    var all := BatchRun(items, run).calls;
    assert all[|before|..|before| + |mine|] == upTo[|before|..];
  }

  /** Every item starts by writing its XML, whatever its position and whatever the collaborators answer. */
  lemma ItemStartsWithXml(index: nat, item: BatchItem, uuid: string, succeeds: (nat, Call) -> bool)
    ensures var calls := ItemRun(index, item, uuid, succeeds).calls;
      |calls| >= 1 && calls[0] == WriteXml(TempXmlPath(item, uuid), item)
  {
  }

  /** An item succeeds exactly when all six of its steps succeed. */
  lemma ItemSucceedsIff(index: nat, item: BatchItem, uuid: string, succeeds: (nat, Call) -> bool)
    ensures ItemRun(index, item, uuid, succeeds).succeeded
        <==> forall c | c in ItemSteps(item, TempXmlPath(item, uuid)) :: succeeds(index, c)
  {
    var steps := ItemSteps(item, TempXmlPath(item, uuid));
    PipelineShape(index, steps, succeeds);
    assert forall c | c in steps :: exists k | 0 <= k < |steps| :: steps[k] == c;
  }

  /**
    * The first failing step ends the item: the steps after it are never made,
    * and the temporary XML is deleted exactly when it was written (the first
    * step).
    */
  lemma FirstFailureEndsItem(index: nat, item: BatchItem, uuid: string, succeeds: (nat, Call) -> bool, k: nat)
    requires var steps := ItemSteps(item, TempXmlPath(item, uuid));
      && k < |steps| && !succeeds(index, steps[k])
      && forall j | 0 <= j < k :: succeeds(index, steps[j])
    ensures var xml := TempXmlPath(item, uuid);
      ItemRun(index, item, uuid, succeeds)
        == ItemOutcome(ItemSteps(item, xml)[..k + 1] + (if k > 0 then [DeleteXml(xml)] else []), false)
  {
    PipelineStopsAt(index, ItemSteps(item, TempXmlPath(item, uuid)), succeeds, k);
  }

  /** A fully successful item makes all six steps in order, then deletes its temporary XML. */
  lemma SuccessfulItemCalls(index: nat, item: BatchItem, uuid: string, succeeds: (nat, Call) -> bool)
    requires ItemRun(index, item, uuid, succeeds).succeeded
    ensures var xml := TempXmlPath(item, uuid);
      ItemRun(index, item, uuid, succeeds).calls == ItemSteps(item, xml) + [DeleteXml(xml)]
  {
    var xml := TempXmlPath(item, uuid);
    PipelineShape(index, ItemSteps(item, xml), succeeds);
    assert succeeds(index, ItemSteps(item, xml)[0]);
  }

  /**
    * The base name is the customer id and "_", then the characters of the
    * date other than '-'; it holds a '-' only when the customer id does.
    */
  lemma BaseNameChars(item: BatchItem)
    ensures var b := BaseName(item);
      && StartsWith(b, item.customerId + "_")
      && (forall c :: c in b[|item.customerId| + 1..] <==> c in item.statementDate && c != '-')
      && ('-' !in item.customerId ==> '-' !in b)
  {
    var b := BaseName(item);
    assert b[..|item.customerId| + 1] == item.customerId + "_";
    assert b[|item.customerId| + 1..] == RemoveAll(item.statementDate, '-');
  }

  /**
    * For a date written "y-m-d" with no '-' inside its parts, the base name is
    * the customer id, "_", then y, m and d run together.
    */
  lemma BaseNameShape(item: BatchItem, y: string, m: string, d: string)
    requires item.statementDate == y + "-" + m + "-" + d
    requires '-' !in y && '-' !in m && '-' !in d
    ensures BaseName(item) == item.customerId + "_" + (y + m + d)
  {
    RemoveAllSeparator(y + "-" + m, d, '-');
    RemoveAllSeparator(y, m, '-');
  }

  /** A date of the batch input file: "2024-03-10" for customer C001 gives "C001_20240310". */
  lemma BaseNameExample(item: BatchItem)
    requires item.customerId == "C001" && item.statementDate == "2024-03-10"
    ensures BaseName(item) == "C001_20240310"
  {
    assert item.statementDate == "2024" + "-" + "03" + "-" + "10";
    assert item.customerId + "_" + ("2024" + "03" + "10") == "C001_20240310";
    BaseNameShape(item, "2024", "03", "10");
  }

  /**
    * Each output file of an item lies in its own directory, has its own
    * extension, and gives back the base name (the temporary XML file: the
    * UUID) between the two.
    */
  lemma OutputPaths(item: BatchItem, uuid: string)
    ensures var p := AfpOutputPath(item);
      StartsWith(p, AfpOutputDir) && EndsWith(p, ".afp") && p[|AfpOutputDir|..|p| - 4] == BaseName(item)
    ensures var p := PdfOutputPath(item);
      StartsWith(p, PdfOutputDir) && EndsWith(p, ".pdf") && p[|PdfOutputDir|..|p| - 4] == BaseName(item)
    ensures var p := EmlOutputPath(item);
      StartsWith(p, EmlOutputDir) && EndsWith(p, ".eml") && p[|EmlOutputDir|..|p| - 4] == BaseName(item)
    ensures var p, dir := TempXmlPath(item, uuid), TempXmlDir + BaseName(item) + "_";
      StartsWith(p, dir) && EndsWith(p, ".xml") && p[|dir|..|p| - 4] == uuid
  {
    Framed(AfpOutputDir, BaseName(item), ".afp");
    Framed(PdfOutputDir, BaseName(item), ".pdf");
    Framed(EmlOutputDir, BaseName(item), ".eml");
    Framed(TempXmlDir + BaseName(item) + "_", uuid, ".xml");
  }

  /** The subject names the statement date as given, after "Your Statement for ". */
  lemma SubjectNamesDate(item: BatchItem)
    ensures var r := Subject(item);
      StartsWith(r, "Your Statement for ") && r[19..] == item.statementDate
  {
    var r := Subject(item);
    assert r[..19] == "Your Statement for ";
  }

  /**
    * An item's four files are distinct, and two items whose base names differ
    * never share a file: no item's output overwrites another's.
    */
  lemma OutputFilesDistinct(item: BatchItem, other: BatchItem, uuid: string, otherUuid: string)
    ensures AfpOutputPath(item) != PdfOutputPath(item) && PdfOutputPath(item) != EmlOutputPath(item)
    ensures AfpOutputPath(item) != EmlOutputPath(item)
    ensures TempXmlPath(item, uuid) !in {AfpOutputPath(item), PdfOutputPath(item), EmlOutputPath(item)}
    ensures BaseName(item) != BaseName(other) ==>
      && AfpOutputPath(item) != AfpOutputPath(other)
      && PdfOutputPath(item) != PdfOutputPath(other)
      && EmlOutputPath(item) != EmlOutputPath(other)
    ensures uuid != otherUuid ==> TempXmlPath(item, uuid) != TempXmlPath(item, otherUuid)
  {
    OutputPaths(item, uuid);
    OutputPaths(item, otherUuid);
    OutputPaths(other, otherUuid);
  }

  /**
    * The PDF of an item is the file the REST API serves under the statement
    * id `BaseName(item)`: the service's PDF directory is the batch module's
    * output directory seen from the REST module.
    */
  lemma ServiceFindsBatchPdf(item: BatchItem)
    ensures StatementService.PdfPath(BaseName(item)) == "../BatchProcessingModule/" + PdfOutputPath(item)
  {
    var b := BaseName(item);
    assert StatementService.PdfDir == "../BatchProcessingModule/" + BaseOutputDir + "/pdf/";
    assert StatementService.PdfDir + b + ".pdf" == "../BatchProcessingModule/" + (BaseOutputDir + "/pdf/" + b + ".pdf");
  }

  /** Likewise, the AFP of an item is the file the status lookup finds under `BaseName(item)`. */
  lemma ServiceFindsBatchAfp(item: BatchItem)
    ensures StatementService.AfpPath(BaseName(item)) == "../BatchProcessingModule/" + AfpOutputPath(item)
  {
    var b := BaseName(item);
    assert StatementService.AfpDir == "../BatchProcessingModule/" + BaseOutputDir + "/afp/";
    assert StatementService.AfpDir + b + ".afp" == "../BatchProcessingModule/" + (BaseOutputDir + "/afp/" + b + ".afp");
  }

  /** `t` occurs at the end of `p + t`. */
  lemma ContainsAtEnd(p: string, t: string)
    ensures Contains(p + t, t)
  {
    assert (p + t)[|p|..|p| + |t|] == t;
    assert OccursAt(p + t, t, |p|);
  }

  /** What occurs in `p` still occurs once more text follows it. */
  lemma ContainsExtended(p: string, r: string, ts: seq<string>)
    requires forall t | t in ts :: Contains(p, t)
    ensures forall t | t in ts :: Contains(p + r, t)
  {
    forall t | t in ts
      ensures Contains(p + r, t)
    {
      var i :| 0 <= i <= |p| - |t| && OccursAt(p, t, i);
      assert (p + r)[i..i + |t|] == p[i..i + |t|];
      assert OccursAt(p + r, t, i);
    }
  }

  /** Each slot value occurs in a template filled as `h + a + m1 + d + m2 + n + m3 + b + t`. */
  lemma FilledSlots(h: string, a: string, m1: string, d: string, m2: string, n: string, m3: string, b: string, t: string)
    ensures var x := h + a + m1 + d + m2 + n + m3 + b + t;
      Contains(x, a) && Contains(x, d) && Contains(x, n) && Contains(x, b)
  {
    ContainsAtEnd(h, a);
    ContainsExtended(h + a, m1, [a]);
    ContainsAtEnd(h + a + m1, d);
    ContainsExtended(h + a + m1, d, [a]);
    ContainsExtended(h + a + m1 + d, m2, [a, d]);
    ContainsAtEnd(h + a + m1 + d + m2, n);
    ContainsExtended(h + a + m1 + d + m2, n, [a, d]);
    ContainsExtended(h + a + m1 + d + m2 + n, m3, [a, d, n]);
    ContainsAtEnd(h + a + m1 + d + m2 + n + m3, b);
    ContainsExtended(h + a + m1 + d + m2 + n + m3, b, [a, d, n]);
    ContainsExtended(h + a + m1 + d + m2 + n + m3 + b, t, [a, d, n, b]);
  }

  /**
    * The generated XML carries the customer id as the account number and as
    * the barcode prefix, and the statement date and the name in their
    * elements.
    */
  lemma XmlSlots(item: BatchItem)
    ensures Contains(StatementXml(item), Element("accountNumber", item.customerId))
    ensures Contains(StatementXml(item), Element("statementDate", item.statementDate))
    ensures Contains(StatementXml(item), Element("name", item.name))
    ensures Contains(StatementXml(item), Element("barcodeData", item.customerId + BarcodeSuffix))
  {
    FilledSlots(XmlHead, Element("accountNumber", item.customerId),
                XmlAfterAccount, Element("statementDate", item.statementDate),
                XmlAfterDate, Element("name", item.name),
                XmlAfterName, Element("barcodeData", item.customerId + BarcodeSuffix), XmlTail);
  }
}
