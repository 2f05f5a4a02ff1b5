/**
  Notification routing of the boiler monitor: the fixed state string each event
  is announced with, the choice of transport, and the shell command that mails
  the announcement.
 */
module Notification {

  import opened Optional

  /** The four events the supervisor announces. */
  datatype Event = Failed | ButtonPressed | ButtonPressFailed | Recovered

  /** The state string of each event: `boiler_failed`, `boiler_button_pressed`,
      `boiler_button_pressed_failed` and `boiler_recovered` each pass one fixed
      string on. None of them contains a single quote, which the mail command
      relies on. */
  function StateName(e: Event): (s: string)
    ensures s != [] && '\'' !in s
  {
    match e
    case Failed => "FAIL"
    case ButtonPressed => "BUTTON_PRESS"
    case ButtonPressFailed => "BUTTON_PRESS_FAILED_ERROR"
    case Recovered => "OK"
  }

  /** Distinct events are announced with distinct state strings. */
  lemma StateNameInjective(e1: Event, e2: Event)
    ensures StateName(e1) == StateName(e2) <==> e1 == e2
  {
  }

  /** How a notification leaves the host: not at all (outside production mode,
      or without a mail address), over ssh, or through a local shell. */
  datatype Route = NotProd | NoAddress | Ssh | Local

  /** The transport decision of `boiler_notification_send`; an empty string is
      Python's false value. */
  function ChooseRoute(prod: bool, sshHost: string, sshUser: string, mailAddress: string): (r: Route)
    ensures r == NotProd <==> !prod
    ensures r == NoAddress <==> prod && mailAddress == ""
    ensures r == Ssh <==> prod && sshHost != "" && sshUser != "" && mailAddress != ""
    ensures r == Local <==> prod && mailAddress != "" && (sshHost == "" || sshUser == "")
  {
    if prod then
      if sshHost != "" && sshUser != "" && mailAddress != "" then Ssh
      else if mailAddress != "" then Local
      else NoAddress
    else
      NotProd
  }

  /** A route that makes a transport call (and so can fail or raise). */
  predicate CallsTransport(r: Route) {
    r == Ssh || r == Local
  }

  /** A transport call is made exactly in production mode with an address set. */
  lemma TransportCalledIff(prod: bool, sshHost: string, sshUser: string, mailAddress: string)
    ensures CallsTransport(ChooseRoute(prod, sshHost, sshUser, mailAddress)) <==> prod && mailAddress != ""
  {
  }

  // The three fixed pieces of the mail command.
  const CommandHead := "echo 'Boiler "
  const CommandMiddle := "' | mail -s \"Boiler "
  const CommandTail := " at $(date)\" "

  /** The shell command that mails `state` to `address` (the body is
      "Boiler <state>", the subject "Boiler <state> at <date>"). */
  function MailCommand(state: string, address: string): (cmd: string)
    ensures CommandHead + state <= cmd
    ensures |cmd| == |CommandHead| + |state| + |CommandMiddle| + |state| + |CommandTail| + |address|
    ensures cmd[|cmd| - |address|..] == address
  {
    CommandHead + state + CommandMiddle + state + CommandTail + address
  }

  /** The mail command regrouped as the parser reads it. */
  lemma MailCommandShape(state: string, address: string)
    ensures MailCommand(state, address)
      == CommandHead + (state + ((CommandMiddle + state + CommandTail) + address))
  {
  }

  /** A sequence is its prefix followed by the rest. */
  lemma PrefixSplit(p: string, s: string)
    requires p <= s
    ensures s == p + s[|p|..]
  {
  }

  /** The longest prefix of `s` without a single quote. */
  function UpToQuote(s: string): (r: string)
    ensures r <= s && '\'' !in r
    ensures |r| == |s| || s[|r|] == '\''
  {
    if s == [] || s[0] == '\'' then [] else [s[0]] + UpToQuote(s[1..])
  }

  /** Reads a mail command back into its state string and address; the
      inverse of `MailCommand` on state strings free of single quotes. */
  function ParseMailCommand(cmd: string): (r: Option<(string, string)>)
    ensures r.Some? ==> MailCommand(r.value.0, r.value.1) == cmd
  {
    if CommandHead <= cmd then
      var body := cmd[|CommandHead|..];
      var state := UpToQuote(body);
      var rest := body[|state|..];
      var echo := CommandMiddle + state + CommandTail;
      if echo <= rest then
        var address := rest[|echo|..];
        PrefixSplit(echo, rest);
        PrefixSplit(state, body);
        PrefixSplit(CommandHead, cmd);
        MailCommandShape(state, address);
        Some((state, address))
      else
        None
    else
      None
  }

  /** Scanning for a quote stops at the first one. */
  lemma {:induction false} UpToQuoteStops(a: string, b: string)
    requires '\'' !in a
    requires b != [] && b[0] == '\''
    ensures UpToQuote(a + b) == a
  {
    if a == [] {
      assert a + b == b;
    } else {
      assert (a + b)[0] == a[0];
      assert (a + b)[1..] == a[1..] + b;
      UpToQuoteStops(a[1..], b);
      assert [a[0]] + a[1..] == a;
    }
  }

  /** Parsing a mail command gives back the state string and the address. */
  lemma ParseMailCommandRoundTrip(state: string, address: string)
    requires '\'' !in state
    ensures ParseMailCommand(MailCommand(state, address)) == Some((state, address))
  {
    var cmd := MailCommand(state, address);
    var body := cmd[|CommandHead|..];
    var tail := CommandMiddle + state + CommandTail + address;
    assert cmd == CommandHead + (state + tail);
    assert body == state + tail;
    UpToQuoteStops(state, tail);
    assert body[|state|..] == tail;
    var echo := CommandMiddle + state + CommandTail;
    assert tail == echo + address;
    assert tail[|echo|..] == address;
  }

  /** The command determines the event it announces and the address it is
      sent to. */
  lemma MailCommandIdentifiesEvent(e1: Event, e2: Event, address1: string, address2: string)
    ensures MailCommand(StateName(e1), address1) == MailCommand(StateName(e2), address2)
      <==> e1 == e2 && address1 == address2
  {
    if MailCommand(StateName(e1), address1) == MailCommand(StateName(e2), address2) {
      ParseMailCommandRoundTrip(StateName(e1), address1);
      ParseMailCommandRoundTrip(StateName(e2), address2);
      StateNameInjective(e1, e2);
    }
  }

  /** What `boiler_notification_send` does with one event: drop it, or make
      one transport call with the mail command. */
  datatype Delivery = Dropped(why: Route) | Sent(via: Route, command: string)

  function Dispatch(prod: bool, sshHost: string, sshUser: string, mailAddress: string, e: Event): (d: Delivery)
    ensures d.Sent? <==> prod && mailAddress != ""
    ensures d.Sent? ==> d.via == ChooseRoute(prod, sshHost, sshUser, mailAddress) && CallsTransport(d.via)
    ensures d.Sent? ==> ParseMailCommand(d.command) == Some((StateName(e), mailAddress))
    ensures d.Dropped? ==> d.why == (if prod then NoAddress else NotProd)
  {
    var route := ChooseRoute(prod, sshHost, sshUser, mailAddress);
    if CallsTransport(route) then
      ParseMailCommandRoundTrip(StateName(e), mailAddress);
      Sent(route, MailCommand(StateName(e), mailAddress))
    else
      Dropped(route)
  }

  /** The deliveries for a list of events, in order. */
  function DispatchAll(prod: bool, sshHost: string, sshUser: string, mailAddress: string, events: seq<Event>): (ds: seq<Delivery>)
    ensures |ds| == |events|
    ensures forall i :: 0 <= i < |events| ==> ds[i] == Dispatch(prod, sshHost, sshUser, mailAddress, events[i])
  {
    if events == [] then
      []
    else
      [Dispatch(prod, sshHost, sshUser, mailAddress, events[0])]
      + DispatchAll(prod, sshHost, sshUser, mailAddress, events[1..])
  }

  /** The number of transport calls among some deliveries. */
  function TransportCalls(ds: seq<Delivery>): nat {
    if ds == [] then 0 else (if ds[0].Sent? then 1 else 0) + TransportCalls(ds[1..])
  }

  /** Outside production mode no event, however many, makes a transport call;
      in production mode with an address, every event makes exactly one. */
  lemma {:induction false} TransportCallsCounted(prod: bool, sshHost: string, sshUser: string, mailAddress: string, events: seq<Event>)
    ensures TransportCalls(DispatchAll(prod, sshHost, sshUser, mailAddress, events))
      == if prod && mailAddress != "" then |events| else 0
  {
    if events != [] {
      TransportCallsCounted(prod, sshHost, sshUser, mailAddress, events[1..]);
    }
  }
}
