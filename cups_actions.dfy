/** Decoding the replies of the IPP "get printers" and "get jobs" requests
  * into the service's printers and jobs. The server's reply maps are
  * visited in some order; the model takes that order as a sequence. */
module CupsActions {
  import opened Common
  import opened Strs
  import opened CupsManager

  const AttributePrinterName: string := "printer-name"
  const AttributePrinterUriSupported: string := "printer-uri-supported"
  const AttributePrinterStateReasons: string := "printer-state-reasons"
  const AttributePrinterLocation: string := "printer-location"
  const AttributePrinterInfo: string := "printer-info"
  const AttributePrinterMakeAndModel: string := "printer-make-and-model"
  const AttributePrinterIsAcceptingJobs: string := "printer-is-accepting-jobs"
  const AttributeJobID: string := "job-id"
  const AttributeJobName: string := "job-name"
  const AttributeJobPrinterURI: string := "job-printer-uri"
  const AttributeJobOriginatingUserName: string := "job-originating-user-name"
  const AttributeJobKilobyteOctets: string := "job-k-octets"
  const AttributeTimeAtCreation: string := "time-at-creation"

  /** One printer's attributes as a printer, before the empty-name filter;
    * a printer read from the server has no jobs yet. */
  function DecodePrinter(attrs: Attributes): (p: Printer)
    ensures p.Name == GetStringAttr(attrs, AttributePrinterName)
    ensures p.State == ParsePrinterState(attrs)
    ensures p.Accepting == GetBoolAttr(attrs, AttributePrinterIsAcceptingJobs)
    ensures p.Jobs == []
  {
    Printer(GetStringAttr(attrs, AttributePrinterName), GetStringAttr(attrs, AttributePrinterUriSupported),
            ParsePrinterState(attrs), GetStringAttr(attrs, AttributePrinterStateReasons),
            GetStringAttr(attrs, AttributePrinterLocation), GetStringAttr(attrs, AttributePrinterInfo),
            GetStringAttr(attrs, AttributePrinterMakeAndModel),
            GetBoolAttr(attrs, AttributePrinterIsAcceptingJobs), [])
  }

  /** The printers of a reply, in order, without those with an empty
    * name. */
  function Printers(replies: seq<Attributes>): (ps: seq<Printer>)
  {
    if |replies| == 0 then []
    else
      var init, last := replies[..|replies| - 1], replies[|replies| - 1];
      var p := DecodePrinter(last);
      Printers(init) + (if p.Name != "" then [p] else [])
  }

  /** At most one entry per reply, and none that the filter drops. */
  lemma {:induction false} PrintersFiltered(replies: seq<Attributes>)
    ensures |Printers(replies)| <= |replies|
    ensures forall k :: 0 <= k < |Printers(replies)| ==> Printers(replies)[k].Name != ""
  {
    if |replies| > 0 {
      var init, last := replies[..|replies| - 1], replies[|replies| - 1];
      assert replies == init + [last];
      PrintersFiltered(init);
    }
  }

  /** Every reply that passes the filter is decoded into the result, and
    * the result holds nothing else. */
  lemma {:induction false} PrintersMembers(replies: seq<Attributes>)
    ensures forall a :: a in replies && GetStringAttr(a, AttributePrinterName) != "" ==> DecodePrinter(a) in Printers(replies)
    ensures forall p :: p in Printers(replies) ==> exists a :: a in replies && p == DecodePrinter(a)
  {
    if |replies| > 0 {
      var init, last := replies[..|replies| - 1], replies[|replies| - 1];
      assert replies == init + [last];
      PrintersMembers(init);
    }
  }

  /** `GetPrinters`: a failed request is passed on; otherwise every printer
    * with a name, in the order of the reply. */
  method GetPrinters(reply: Result<seq<Attributes>>) returns (r: Result<seq<Printer>>)
    ensures reply.Err? ==> r == Err(reply.msg)
    ensures reply.Ok? ==> r == Ok(Printers(reply.value))
  {
    if reply.Err? {
      return Err(reply.msg);
    }
    var printers := DecodePrinters(reply.value);
    return Ok(printers);
  }

  /** The decoding loop of `GetPrinters`. */
  method DecodePrinters(replies: seq<Attributes>) returns (printers: seq<Printer>)
    ensures printers == Printers(replies)
  {
    printers := [];
    var i := 0;
    while i < |replies|
      invariant 0 <= i <= |replies|
      invariant printers == Printers(replies[..i])
    {
      PrintersStep(replies, i);
      var printer := DecodePrinter(replies[i]);
      if printer.Name != "" {
        printers := printers + [printer];
      }
      i := i + 1;
    }
    assert replies[..i] == replies;
  }

  lemma PrintersStep(replies: seq<Attributes>, n: nat)
    requires n < |replies|
    ensures Printers(replies[..n + 1]) == Printers(replies[..n]) + (if DecodePrinter(replies[n]).Name != "" then [DecodePrinter(replies[n])] else [])
  {
    var rs := replies[..n + 1];
    assert rs[..|rs| - 1] == replies[..n] && rs[|rs| - 1] == replies[n];
  }

  /** The printer a job URI names: the last '/'-separated piece, or "" for
    * an empty URI. */
  function JobPrinter(uri: string): (name: string)
    ensures uri == "" ==> name == ""
    ensures uri != "" ==> AfterLast(uri, '/', name)
  {
    if uri == "" then "" else LastSplitPiece(uri, '/')
  }

  /** One job's attributes as a job, before the zero-id filter. The size is
    * the kilobyte count times 1024; the creation time is set only for a
    * positive timestamp. */
  function DecodeJob(attrs: Attributes): (j: Job)
    ensures j.ID == GetIntAttr(attrs, AttributeJobID)
    ensures j.State == ParseJobState(attrs)
    ensures j.Size == GetIntAttr(attrs, AttributeJobKilobyteOctets) * 1024
    ensures j.Printer == JobPrinter(GetStringAttr(attrs, AttributeJobPrinterURI))
    ensures j.TimeCreated.Some? <==> GetIntAttr(attrs, AttributeTimeAtCreation) > 0
    ensures j.TimeCreated.Some? ==> j.TimeCreated.value == GetIntAttr(attrs, AttributeTimeAtCreation)
  {
    var ts := GetIntAttr(attrs, AttributeTimeAtCreation);
    Job(GetIntAttr(attrs, AttributeJobID), GetStringAttr(attrs, AttributeJobName), ParseJobState(attrs),
        JobPrinter(GetStringAttr(attrs, AttributeJobPrinterURI)),
        GetStringAttr(attrs, AttributeJobOriginatingUserName),
        GetIntAttr(attrs, AttributeJobKilobyteOctets) * 1024,
        if ts > 0 then Some(ts) else None)
  }

  /** The jobs of a reply, in order, without those whose id is 0. */
  function Jobs(replies: seq<Attributes>): (js: seq<Job>)
  {
    if |replies| == 0 then []
    else
      var init, last := replies[..|replies| - 1], replies[|replies| - 1];
      var j := DecodeJob(last);
      Jobs(init) + (if j.ID != 0 then [j] else [])
  }

  /** At most one entry per reply, and none that the filter drops. */
  lemma {:induction false} JobsFiltered(replies: seq<Attributes>)
    ensures |Jobs(replies)| <= |replies|
    ensures forall k :: 0 <= k < |Jobs(replies)| ==> Jobs(replies)[k].ID != 0
  {
    if |replies| > 0 {
      var init, last := replies[..|replies| - 1], replies[|replies| - 1];
      assert replies == init + [last];
      JobsFiltered(init);
    }
  }

  /** Every reply that passes the filter is decoded into the result, and
    * the result holds nothing else. */
  lemma {:induction false} JobsMembers(replies: seq<Attributes>)
    ensures forall a :: a in replies && GetIntAttr(a, AttributeJobID) != 0 ==> DecodeJob(a) in Jobs(replies)
    ensures forall j :: j in Jobs(replies) ==> exists a :: a in replies && j == DecodeJob(a)
  {
    if |replies| > 0 {
      var init, last := replies[..|replies| - 1], replies[|replies| - 1];
      assert replies == init + [last];
      JobsMembers(init);
    }
  }

  /** `GetJobs`: a failed request is passed on; otherwise every job with a
    * non-zero id, in the order of the reply. */
  method GetJobs(reply: Result<seq<Attributes>>) returns (r: Result<seq<Job>>)
    ensures reply.Err? ==> r == Err(reply.msg)
    ensures reply.Ok? ==> r == Ok(Jobs(reply.value))
  {
    if reply.Err? {
      return Err(reply.msg);
    }
    var jobs := DecodeJobs(reply.value);
    return Ok(jobs);
  }

  /** The decoding loop of `GetJobs`. */
  method DecodeJobs(replies: seq<Attributes>) returns (jobs: seq<Job>)
    ensures jobs == Jobs(replies)
  {
    jobs := [];
    var i := 0;
    while i < |replies|
      invariant 0 <= i <= |replies|
      invariant jobs == Jobs(replies[..i])
    {
      JobsStep(replies, i);
      var job := DecodeJob(replies[i]);
      if job.ID != 0 {
        jobs := jobs + [job];
      }
      i := i + 1;
    }
    assert replies[..i] == replies;
  }

  lemma JobsStep(replies: seq<Attributes>, n: nat)
    requires n < |replies|
    ensures Jobs(replies[..n + 1]) == Jobs(replies[..n]) + (if DecodeJob(replies[n]).ID != 0 then [DecodeJob(replies[n])] else [])
  {
    var rs := replies[..n + 1];
    assert rs[..|rs| - 1] == replies[..n] && rs[|rs| - 1] == replies[n];
  }

  /** The printer of a job is the one text after the last '/' of its URI. */
  lemma JobPrinterIsAfterLast(uri: string, name: string)
    requires uri != "" && AfterLast(uri, '/', name)
    ensures JobPrinter(uri) == name
  {
    AfterLastUnique(uri, '/', JobPrinter(uri), name);
  }

  /** The job of the decoding test: 10 kilobytes are 10240 bytes and the
    * printer is named by the last piece of its URI. */
  lemma JobExample(attrs: Attributes, uri: string)
    requires FirstValue(attrs, AttributeJobKilobyteOctets) == Some(IntValue(10))
    requires GetStringAttr(attrs, AttributeJobPrinterURI) == uri
    requires uri == "ipp://localhost/printers/office"
    ensures DecodeJob(attrs).Size == 10240 && DecodeJob(attrs).Printer == "office"
  {
    OfficeIsLastPiece(uri);
    assert JobPrinter(uri) == "office";
    assert GetIntAttr(attrs, AttributeJobKilobyteOctets) == 10;
  }

  /** The test's job URI names the printer "office". */
  lemma OfficeIsLastPiece(uri: string)
    requires uri == "ipp://localhost/printers/office"
    ensures JobPrinter(uri) == "office"
  {
    assert AfterLast(uri, '/', "office") by {
      assert uri[|uri| - 6..] == "office";
      assert uri[|uri| - 7] == '/';
    }
    JobPrinterIsAfterLast(uri, "office");
  }
}
