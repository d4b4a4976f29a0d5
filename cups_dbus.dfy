/** Print events from the local CUPS daemon's D-Bus notifier: how a signal
  * becomes a subscription event, which events the listener passes on, and
  * the running flag of the subscription manager. */
module CupsDbus {
  import opened Common
  import opened Strs

  /** The D-Bus values the parser looks at. */
  datatype BusValue = BusString(s: string) | BusUint32(u: bv32) | BusOther

  datatype Signal = Signal(name: string, body: seq<BusValue>)

  /** A subscription event; an empty name means "nothing to report". */
  datatype SubscriptionEvent = SubscriptionEvent(EventName: string, PrinterName: string, JobID: int)

  const NoEvent := SubscriptionEvent("", "", 0)

  /** How one notifier signal is read: its event name, whether the printer
    * URI in the second argument can name the printer, and whether the
    * fourth argument is a job id. */
  datatype SignalKind = SignalKind(eventName: string, usesURI: bool, hasJob: bool)

  function KindOf(member: string): (k: Option<SignalKind>)
    ensures k.Some? ==> k.value.eventName != ""
    ensures k.Some? && k.value.hasJob ==> k.value.usesURI
  {
    if member == "org.cups.cupsd.Notifier.JobStateChanged" then Some(SignalKind("job-state-changed", true, true))
    else if member == "org.cups.cupsd.Notifier.JobCreated" then Some(SignalKind("job-created", true, true))
    else if member == "org.cups.cupsd.Notifier.JobCompleted" then Some(SignalKind("job-completed", true, true))
    else if member == "org.cups.cupsd.Notifier.PrinterStateChanged" then
      Some(SignalKind("printer-state-changed", true, false))
    else if member == "org.cups.cupsd.Notifier.PrinterAdded" then Some(SignalKind("printer-added", false, false))
    else if member == "org.cups.cupsd.Notifier.PrinterDeleted" then
      Some(SignalKind("printer-deleted", false, false))
    else None
  }

  /** The printer named by the notification text: its first space-separated
    * token when there are at least two, else "". */
  function TextPrinter(text: string): (name: string)
    ensures name != "" ==> |Split(text, " ")| >= 2 && name == Split(text, " ")[0]
  {
    var parts := Split(text, " ");
    if |parts| >= 2 then parts[0] else ""
  }

  /** The printer of a notification: from the text argument, or else,
    * where the kind allows it, from the last '/' piece of the URI
    * argument. */
  function EventPrinter(k: SignalKind, body: seq<BusValue>): (name: string)
    requires |body| >= 6
    ensures name != "" ==>
              (body[0].BusString? && name == TextPrinter(body[0].s))
              || (k.usesURI && body[1].BusString? && '/' in body[1].s && AfterLast(body[1].s, '/', name))
  {
    var fromText := if body[0].BusString? then TextPrinter(body[0].s) else "";
    if fromText == "" && k.usesURI && body[1].BusString? then
      var uri := body[1].s;
      var idx := LastIndexChar(uri, '/');
      if idx != -1 then
        AfterLastIndex(uri, '/');
        uri[idx + 1..]
      else ""
    else fromText
  }

  /** `parseDBusSignal`. A signal of a known kind with at least six
    * arguments is named when its first argument is text; the printer comes
    * from that text, or else from the URI's last '/' piece; job signals
    * carry the id in their fourth argument. */
  function ParseDBusSignal(sig: Signal): (e: SubscriptionEvent)
    ensures KindOf(sig.name).None? || |sig.body| < 6 ==> e == NoEvent
    ensures e.EventName != "" <==> KindOf(sig.name).Some? && |sig.body| >= 6 && sig.body[0].BusString?
    ensures e.EventName != "" ==> e.EventName == KindOf(sig.name).value.eventName
    ensures e.JobID != 0 ==>
              KindOf(sig.name).Some? && KindOf(sig.name).value.hasJob && |sig.body| >= 6
              && sig.body[3].BusUint32? && sig.body[3].u as int == e.JobID
    ensures e.JobID >= 0
    ensures e.PrinterName != "" ==>
              KindOf(sig.name).Some? && |sig.body| >= 6 && e.PrinterName == EventPrinter(KindOf(sig.name).value, sig.body)
  {
    var kind := KindOf(sig.name);
    if kind.None? || |sig.body| < 6 then NoEvent
    else
      var k := kind.value;
      var eventName := if sig.body[0].BusString? then k.eventName else "";
      var jobID := if k.hasJob && sig.body[3].BusUint32? then sig.body[3].u as int else 0;
      SubscriptionEvent(eventName, EventPrinter(k, sig.body), jobID)
  }

  /** A job notification whose text starts with the printer name: the
    * listener gets the printer from the text and the id from the fourth
    * argument. */
  lemma JobCreatedExample(printer: string, rest: string, uri: string, id: bv32, others: seq<BusValue>)
    requires printer != "" && ' ' !in printer && |others| >= 2
    ensures var sig := Signal("org.cups.cupsd.Notifier.JobCreated",
                              [BusString(printer + " " + rest), BusString(uri), BusOther, BusUint32(id)] + others);
            ParseDBusSignal(sig) == SubscriptionEvent("job-created", printer, id as int)
  {
    var body := [BusString(printer + " " + rest), BusString(uri), BusOther, BusUint32(id)] + others;
    assert body[0] == BusString(printer + " " + rest) && body[3] == BusUint32(id);
    PrinterFirstInText(printer, rest);
  }

  /** A text starting with a name free of spaces and a space names that
    * printer. */
  lemma PrinterFirstInText(printer: string, rest: string)
    requires printer != "" && ' ' !in printer
    ensures TextPrinter(printer + " " + rest) == printer
  {
    var text := printer + " " + rest;
    var i := Index(text, " ");
    assert OccursAt(text, " ", |printer|);
    forall k | 0 <= k < |printer| ensures !OccursAt(text, " ", k) {
      assert text[k..k + 1] == [printer[k]];
    }
    assert i == |printer|;
    assert text[..i] == printer;
    var parts := Split(text, " ");
    assert parts == [printer] + Split(text[i + 1..], " ");
  }

  /** The events the listener delivers, in order: signals that are absent
    * (nil) or parse to an unnamed event are skipped. Events dropped because
    * the channel is full are not modelled. */
  function Delivered(signals: seq<Option<Signal>>): (events: seq<SubscriptionEvent>)
    ensures |events| <= |signals|
    ensures forall k :: 0 <= k < |events| ==> events[k].EventName != ""
    ensures forall s :: Some(s) in signals && ParseDBusSignal(s).EventName != "" ==> ParseDBusSignal(s) in events
  {
    if |signals| == 0 then []
    else
      var init, last := signals[..|signals| - 1], signals[|signals| - 1];
      assert signals == init + [last];
      var rest := Delivered(init);
      if last.None? then rest
      else
        var e := ParseDBusSignal(last.value);
        if e.EventName == "" then rest else rest + [e]
  }

  /** The events delivered for one more signal of a prefix. */
  lemma DeliveredStep(signals: seq<Option<Signal>>, n: nat)
    requires n < |signals|
    ensures Delivered(signals[..n + 1])
            == if signals[n].Some? && ParseDBusSignal(signals[n].value).EventName != ""
               then Delivered(signals[..n]) + [ParseDBusSignal(signals[n].value)]
               else Delivered(signals[..n])
  {
    var s := signals[..n + 1];
    assert s[..|s| - 1] == signals[..n] && s[|s| - 1] == signals[n];
  }

  /** The listener loop over a run of received signals. */
  method Listen(signals: seq<Option<Signal>>) returns (events: seq<SubscriptionEvent>)
    ensures events == Delivered(signals)
  {
    events := [];
    var i := 0;
    while i < |signals|
      invariant 0 <= i <= |signals|
      invariant events == Delivered(signals[..i])
    {
      DeliveredStep(signals, i);
      var sig := signals[i];
      if sig.Some? {
        var event := ParseDBusSignal(sig.value);
        if event.EventName != "" {
          events := events + [event];
        }
      }
      i := i + 1;
    }
    assert signals[..i] == signals;
  }

  /** The D-Bus subscription manager's lifecycle. The system bus, the IPP
    * subscription request and the signal match are given as outcomes. */
  class DBusSubscriptionManager {
    var running: bool
    var subscriptionID: int

    constructor ()
      ensures !running && subscriptionID == 0
    {
      running, subscriptionID := false, 0;
    }

    /** `Start`: refused while running; otherwise each failing step resets
      * the flag and reports its error, and success leaves the manager
      * running with the new subscription id. When the signal match fails
      * the subscription is cancelled on the server but its id is kept. */
    method Start(connectErr: Option<string>, subscription: Result<int>, matchErr: Option<string>)
      returns (err: Option<string>)
      modifies this
      ensures old(running) ==> err == Some("subscription manager already running") && unchanged(this)
      ensures !old(running) && connectErr.Some? ==>
                err == Some("connect to system bus: " + connectErr.value) && !running
                && subscriptionID == old(subscriptionID)
      ensures !old(running) && connectErr.None? && subscription.Err? ==>
                err == Some("failed to create D-Bus subscription: " + subscription.msg) && !running
                && subscriptionID == old(subscriptionID)
      ensures !old(running) && connectErr.None? && subscription.Ok? && matchErr.Some? ==>
                err == Some("failed to add D-Bus match: " + matchErr.value) && !running
                && subscriptionID == subscription.value
      ensures !old(running) && connectErr.None? && subscription.Ok? && matchErr.None? ==>
                err == None && running && subscriptionID == subscription.value
    {
      if running {
        return Some("subscription manager already running");
      }
      running := true;
      if connectErr.Some? {
        running := false;
        return Some("connect to system bus: " + connectErr.value);
      }
      if subscription.Err? {
        running := false;
        return Some("failed to create D-Bus subscription: " + subscription.msg);
      }
      subscriptionID := subscription.value;
      if matchErr.Some? {
        running := false;
        return Some("failed to add D-Bus match: " + matchErr.value);
      }
      return None;
    }

    /** `Stop`: nothing while stopped; otherwise the manager stops and its
      * subscription, if any, is cancelled and forgotten. */
    method Stop()
      modifies this
      ensures !running
      ensures !old(running) ==> unchanged(this)
      ensures old(running) ==> subscriptionID == 0
    {
      if !running {
        return;
      }
      running := false;
      if subscriptionID != 0 {
        subscriptionID := 0;
      }
    }
  }

  /** A second `Start` is refused until `Stop`, after which starting works
    * again. */
  method StartStopStart(id: int) returns (first: Option<string>, second: Option<string>, third: Option<string>)
    ensures first == None && second == Some("subscription manager already running") && third == None
  {
    var m := new DBusSubscriptionManager();
    first := m.Start(None, Ok(id), None);
    second := m.Start(None, Ok(id), None);
    m.Stop();
    third := m.Start(None, Ok(id), None);
  }
}
