/** The CUPS print service: how IPP attributes are read into printers and
  * jobs, when a new printer list is worth announcing, and which server
  * counts as local. Attribute names are those of the Internet Printing
  * Protocol (RFC 8011); the IPP client library is not part of this model. */
module CupsManager {
  import opened Common
  import opened Strs

  /** The value of an IPP attribute. Values that are neither integers,
    * booleans nor strings carry the text Go's `%v` prints for them. */
  datatype AttrValue = IntValue(i: int) | BoolValue(b: bool) | StringValue(s: string) | OtherValue(text: string)

  /** An IPP attribute group: each name has a list of values. */
  type Attributes = map<string, seq<AttrValue>>

  datatype Job = Job(
    ID: int, Name: string, State: string, Printer: string, User: string, Size: int,
    TimeCreated: Option<int>)

  datatype Printer = Printer(
    Name: string, URI: string, State: string, StateReason: string, Location: string, Info: string,
    MakeModel: string, Accepting: bool, Jobs: seq<Job>)

  /** The published state: printers by name (values, not Go pointers). */
  datatype CUPSState = CUPSState(Printers: map<string, Printer>)

  const AttributePrinterState: string := "printer-state"
  const AttributeJobState: string := "job-state"

  /** The first value of an attribute, when it has one. */
  function FirstValue(attrs: Attributes, key: string): (v: Option<AttrValue>)
    ensures v.Some? <==> key in attrs && |attrs[key]| > 0
    ensures v.Some? ==> v.value == attrs[key][0]
  {
    if key in attrs && |attrs[key]| > 0 then Some(attrs[key][0]) else None
  }

  /** Go's `%v` for a value. */
  function FormatValue(v: AttrValue): string
  {
    match v
    case IntValue(i) => IntToString(i)
    case BoolValue(b) => if b then "true" else "false"
    case StringValue(s) => s
    case OtherValue(t) => t
  }

  /** `getStringAttr`: the first value, as given when it is a string and as
    * `%v` prints it otherwise; "" when the attribute is missing or empty. */
  function GetStringAttr(attrs: Attributes, key: string): (s: string)
    ensures FirstValue(attrs, key).None? ==> s == ""
    ensures FirstValue(attrs, key).Some? && FirstValue(attrs, key).value.StringValue? ==>
              s == FirstValue(attrs, key).value.s
    ensures FirstValue(attrs, key) == Some(BoolValue(true)) ==> s == "true"
    ensures FirstValue(attrs, key) == Some(BoolValue(false)) ==> s == "false"
    ensures FirstValue(attrs, key).Some? && FirstValue(attrs, key).value.IntValue? ==>
              s == IntToString(FirstValue(attrs, key).value.i)
  {
    var v := FirstValue(attrs, key);
    if v.None? then "" else FormatValue(v.value)
  }

  /** `getIntAttr`: the first value when it is an integer, else 0. */
  function GetIntAttr(attrs: Attributes, key: string): (n: int)
    ensures FirstValue(attrs, key).Some? && FirstValue(attrs, key).value.IntValue? ==>
              n == FirstValue(attrs, key).value.i
    ensures n != 0 ==> FirstValue(attrs, key) == Some(IntValue(n))
  {
    var v := FirstValue(attrs, key);
    if v.Some? && v.value.IntValue? then v.value.i else 0
  }

  /** `getBoolAttr`: the first value when it is a boolean, else false. */
  function GetBoolAttr(attrs: Attributes, key: string): (b: bool)
    ensures b <==> FirstValue(attrs, key) == Some(BoolValue(true))
  {
    var v := FirstValue(attrs, key);
    v.Some? && v.value.BoolValue? && v.value.b
  }

  /** The integer state an attribute carries, if its first value is one. */
  function StateNumber(attrs: Attributes, key: string): (n: Option<int>)
    ensures n.Some? <==> FirstValue(attrs, key).Some? && FirstValue(attrs, key).value.IntValue?
    ensures n.Some? ==> FirstValue(attrs, key) == Some(IntValue(n.value))
  {
    var v := FirstValue(attrs, key);
    if v.Some? && v.value.IntValue? then Some(v.value.i) else None
  }

  const PrinterStateNames: seq<string> := ["idle", "processing", "stopped"]

  /** `parsePrinterState`: 3, 4 and 5 are "idle", "processing" and
    * "stopped"; any other integer is printed in decimal; a missing or
    * non-integer state is "unknown". The three outcomes never overlap. */
  function ParsePrinterState(attrs: Attributes): (s: string)
    ensures var n := StateNumber(attrs, AttributePrinterState);
            (n.Some? && 3 <= n.value <= 5 <==> s in PrinterStateNames)
            && (n.Some? && 3 <= n.value <= 5 ==> s == PrinterStateNames[n.value - 3])
            && (n.Some? && !(3 <= n.value <= 5) <==> s != "unknown" && s !in PrinterStateNames)
            && (n.Some? && !(3 <= n.value <= 5) ==> s == IntToString(n.value))
            && (n.None? <==> s == "unknown")
  {
    var n := StateNumber(attrs, AttributePrinterState);
    if n.None? then "unknown"
    else if n.value == 3 then "idle"
    else if n.value == 4 then "processing"
    else if n.value == 5 then "stopped"
    else IntToString(n.value)
  }

  const JobStateNames: seq<string> :=
    ["pending", "pending-held", "processing", "processing-stopped", "canceled", "aborted", "completed"]

  /** `parseJobState`: 3 to 9 are the IPP job states by name; any other
    * integer is printed in decimal; a missing or non-integer state is
    * "unknown". */
  function ParseJobState(attrs: Attributes): (s: string)
    ensures var n := StateNumber(attrs, AttributeJobState);
            (n.Some? && 3 <= n.value <= 9 <==> s in JobStateNames)
            && (n.Some? && 3 <= n.value <= 9 ==> s == JobStateNames[n.value - 3])
            && (n.Some? && !(3 <= n.value <= 9) ==> s == IntToString(n.value))
            && (n.None? <==> s == "unknown")
  {
    var n := StateNumber(attrs, AttributeJobState);
    if n.None? then "unknown"
    else if 3 <= n.value <= 9 then JobStateNames[n.value - 3]
    else IntToString(n.value)
  }

  /** The state names of the tests: printer 3, 4, 5 and job 3, 5, 9. */
  lemma StateNameExamples()
    ensures ParsePrinterState(map[AttributePrinterState := [IntValue(4)]]) == "processing"
    ensures ParseJobState(map[AttributeJobState := [IntValue(9)]]) == "completed"
    ensures ParseJobState(map[AttributeJobState := [IntValue(5)]]) == "processing"
    ensures ParseJobState(map[]) == "unknown"
    ensures ParsePrinterState(map[AttributePrinterState := [StringValue("3")]]) == "unknown"
  {
  }

  /** `stateChanged`: the printer lists differ in size, or some old printer
    * is missing or differs in state, state reason or number of jobs. Since
    * the result is a disjunction, the map's iteration order does not
    * matter. */
  function StateChanged(prev: CUPSState, next: CUPSState): (changed: bool)
    ensures prev == next ==> !changed
    ensures (exists name :: name in prev.Printers && name !in next.Printers) ==> changed
  {
    if |prev.Printers| != |next.Printers| then true
    else exists name | name in prev.Printers ::
           name !in next.Printers
           || prev.Printers[name].State != next.Printers[name].State
           || prev.Printers[name].StateReason != next.Printers[name].StateReason
           || |prev.Printers[name].Jobs| != |next.Printers[name].Jobs|
  }

  /** Printer lists are reported unchanged exactly when they name the same
    * printers and each keeps its state, reason and number of jobs; other
    * fields, and the jobs themselves, go unnoticed. */
  lemma UnchangedMeans(prev: CUPSState, next: CUPSState)
    ensures !StateChanged(prev, next) <==>
              prev.Printers.Keys == next.Printers.Keys
              && forall name :: name in prev.Printers ==>
                   prev.Printers[name].State == next.Printers[name].State
                   && prev.Printers[name].StateReason == next.Printers[name].StateReason
                   && |prev.Printers[name].Jobs| == |next.Printers[name].Jobs|
  {
    if !StateChanged(prev, next) {
      SubsetOfSameSize(prev.Printers.Keys, next.Printers.Keys);
    }
  }

  /** `isLocalCUPS`. */
  predicate IsLocalCUPS(host: string)
  {
    host in {"localhost", "127.0.0.1", "::1", ""}
  }

  /** How `NewManager` reaches the server: the host from `DMS_IPP_HOST`
    * (default "localhost"), the port from `DMS_IPP_PORT` when it parses
    * (default 631), the base URL built from both, and whether events come
    * over D-Bus (a local server) or by IPP polling. */
  datatype Endpoint = Endpoint(host: string, port: int, baseURL: string, useDBus: bool)

  function NewEndpoint(hostEnv: string, portEnv: string): (e: Endpoint)
    ensures e.host == (if hostEnv == "" then "localhost" else hostEnv)
    ensures portEnv != "" && Atoi(portEnv).Some? ==> e.port == Atoi(portEnv).value
    ensures portEnv == "" || Atoi(portEnv).None? ==> e.port == 631
    ensures e.baseURL == "http://" + e.host + ":" + IntToString(e.port)
    ensures e.useDBus <==> e.host in {"localhost", "127.0.0.1", "::1"}
  {
    var host := if hostEnv == "" then "localhost" else hostEnv;
    var port := if portEnv != "" && Atoi(portEnv).Some? then Atoi(portEnv).value else 631;
    Endpoint(host, port, "http://" + host + ":" + IntToString(port), IsLocalCUPS(host))
  }

  /** Without configuration the manager talks to the local server on the
    * standard port and listens on D-Bus. */
  lemma DefaultEndpoint()
    ensures NewEndpoint("", "") == Endpoint("localhost", 631, "http://localhost:631", true)
  {
    assert IntToString(631) == "631" by {
      assert NatToString(6) == "6";
      assert NatToString(63) == "63";
    }
    var e := NewEndpoint("", "");
    assert e.host == "localhost" && e.port == 631;
    LocalURL();
  }

  /** The base URL of the local server, spelled out. */
  lemma LocalURL()
    ensures "http://" + "localhost" + ":" + "631" == "http://localhost:631"
  {
  }

  /** A named print server is polled over IPP, and a port that is not a
    * number falls back to the standard one. */
  lemma RemoteEndpoint()
    ensures !NewEndpoint("printserver", "x").useDBus && NewEndpoint("printserver", "x").port == 631
  {
  }
}
