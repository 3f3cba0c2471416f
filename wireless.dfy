/** The one-click wireless flows of app/scrcpy_runner.py. `wireless_auto`
    takes a headset attached by cable to adb over TCP and connects to it by
    address; `wireless_disconnect` drops a wireless connection and puts adb
    back on the cable. Both return a success flag and a message. */
module Wireless {
  import opened Wrappers
  import opened Text
  import opened Patterns
  import opened Runner
  import opened Registry
  import opened Resolver

  /** The message texts, kept abstract: which message, with the parts of it
      that depend on the run. */
  datatype Message =
    | AlreadyWireless(serial: string)                          // nothing to do
    | NoUsbDevice                                              // no cabled device in state "device"
    | TcpipFailed(stdout: string, stderr: string)              // `adb tcpip` failed
    | NoWifiIp(route: string, addrs: string)                   // no address, with two diagnostic dumps
    | ConnectFailed(target: string, stdout: string, stderr: string)
    | Connected(target: string)
    | Disconnected(serial: string)
    | NothingToDisconnect

  /** The `(ok, message)` pair both flows return. */
  datatype Outcome = Outcome(ok: bool, message: Message)

  /** How many times the poll for a cabled device looks, and its pauses. */
  const PollRounds: nat := 3
  const PollPauseMs: nat := 2000
  /** The pause before each attempt to resolve the address. */
  const SettleMs: nat := 1000

  function TcpipCmd(usb: string): seq<string> {
    ["-s", usb, "tcpip", WirelessPort]
  }

  function ConnectCmd(target: string): seq<string> {
    ["connect", target]
  }

  function DiagRouteCmd(usb: string): seq<string> {
    Shell(usb, ["ip", "route"])
  }

  function DiagAddrCmd(usb: string): seq<string> {
    Shell(usb, ["ip", "-o", "-4", "addr"])
  }

  function DisconnectCmd(dev: string): seq<string> {
    ["disconnect", dev]
  }

  const UsbCmd: seq<string> := ["usb"]

  /** `t == "wifi" and s == "device"`. */
  predicate WifiReady(p: Primary) {
    p.Row? && p.transport == Wifi && p.state == "device"
  }

  /** `tt == "usb" and st == "device"`. */
  predicate UsbReady(p: Primary) {
    p.Row? && p.transport == Usb && p.state == "device"
  }

  // ----- step 2: waiting for a cabled device -----

  /** One look at the devices after a history: `quest_state()`'s pick and
      the events of reading the listing. */
  type Look = seq<Event> -> Out<Primary>

  /** The poll `for _ in range(n)`: look; take a cabled device in state
      "device", else pause two seconds and look again. */
  function Polling(look: Look, past: seq<Event>, n: nat): (o: Out<Option<string>>)
    decreases n
  {
    if n == 0 then Out(None, [])
    else
      var q := look(past);
      if UsbReady(q.value) then Out(Some(q.value.serial), q.events)
      else
        var e := q.events + [Sleep(PollPauseMs)];
        Resume(Polling(look, past + e, n - 1), e)
  }

  /** `quest_state()` as a look. */
  function QuestLook(h: Host): Look {
    (p: seq<Event>) => QuestStateF(h, p)
  }

  /** Step 2 of `wireless_auto` after the history `past`. */
  function PollF(h: Host, past: seq<Event>, n: nat): Out<Option<string>> {
    Polling(QuestLook(h), past, n)
  }

  // ----- steps 4 and 5: the address and the connection -----

  /** `(out.stdout + out.stderr).lower()` holds one of the two phrases adb
      prints on success, and the exit code is 0. */
  predicate ConnectOk(r: RunResult) {
    var txt := Lower(r.stdout + r.stderr);
    r.code == 0 && (Contains(txt, "connected to") || Contains(txt, "already connected"))
  }

  /** `adb connect <ip>:5555` and the verdict on its answer. */
  function ConnectF(h: Host, past: seq<Event>, ip: string): (o: Out<Outcome>)
  {
    var target := ip + ":" + WirelessPort;
    var r := Answer(h, past, ConnectCmd(target));
    Out(if ConnectOk(r) then Outcome(true, Connected(target))
        else Outcome(false, ConnectFailed(target, r.stdout, r.stderr)),
        [Cmd(ConnectCmd(target))])
  }

  /** A pause, `_wifi_ip`, and when that finds nothing one more pause and
      one more `_wifi_ip`. */
  function ResolveF(h: Host, past: seq<Event>, usb: string): (o: Out<Option<string>>)
    ensures o.value.Some? ==> IsDottedQuad(o.value.value)
  {
    var first := WifiIpF(h, past + [Sleep(SettleMs)], usb);
    var e1 := [Sleep(SettleMs)] + first.events;
    if first.value.Some? then Out(first.value, e1)
    else Resume(WifiIpF(h, past + (e1 + [Sleep(SettleMs)]), usb), e1 + [Sleep(SettleMs)])
  }

  /** Steps 3 to 5 on the cabled device `usb`: `adb tcpip 5555`, the
      address, then the connection or two diagnostic dumps. */
  function SwitchF(h: Host, past: seq<Event>, usb: string): (o: Out<Outcome>)
  {
    var t := Answer(h, past, TcpipCmd(usb));
    var e1 := [Cmd(TcpipCmd(usb))];
    if t.code != 0 then Out(Outcome(false, TcpipFailed(t.stdout, t.stderr)), e1)
    else
      var ip := ResolveF(h, past + e1, usb);
      var e2 := e1 + ip.events;
      if ip.value.None? then
        var route := Answer(h, past + e2, DiagRouteCmd(usb));
        var addrs := Answer(h, past + (e2 + [Cmd(DiagRouteCmd(usb))]), DiagAddrCmd(usb));
        Out(Outcome(false, NoWifiIp(route.stdout, addrs.stdout)),
            e2 + [Cmd(DiagRouteCmd(usb)), Cmd(DiagAddrCmd(usb))])
      else Resume(ConnectF(h, past + e2, ip.value.value), e2)
  }

  /** The rest of `wireless_auto` once the events `e1` of the listing and
      the poll have run and the poll has found `usb`, or not. */
  function ProceedF(h: Host, past: seq<Event>, e1: seq<Event>, usb: Option<string>): (o: Out<Outcome>)
  {
    if usb.None? || usb.value == [] then Out(Outcome(false, NoUsbDevice), e1)
    else Resume(SwitchF(h, past + e1, usb.value), e1)
  }

  /** `wireless_auto()` after the history `past`. */
  function WirelessAutoF(h: Host, past: seq<Event>): (o: Out<Outcome>)
  {
    var q := QuestStateF(h, past);
    if WifiReady(q.value) then Out(Outcome(true, AlreadyWireless(q.value.serial)), q.events)
    else
      var poll := PollF(h, past + q.events, PollRounds);
      ProceedF(h, past, q.events + poll.events, poll.value)
  }

  /** What `wireless_disconnect` does once it knows `first_device_or_none()`:
      the answers to its two commands are not looked at. */
  function DisconnectStep(dev: Option<string>): (o: Out<Outcome>)
  {
    if dev.Some? && IsIpSerial(dev.value) then
      Out(Outcome(true, Disconnected(dev.value)), [Cmd(DisconnectCmd(dev.value)), Cmd(UsbCmd)])
    else Out(Outcome(false, NothingToDisconnect), [])
  }

  /** `wireless_disconnect()` after the history `past`. */
  function WirelessDisconnectF(h: Host, past: seq<Event>): (o: Out<Outcome>)
  {
    var q := QuestStateF(h, past);
    Resume(DisconnectStep(FirstDeviceOf(q.value)), q.events)
  }

  // ----- the procedures -----

  /** One round of the poll: a cabled device ends it; otherwise the pause
      follows and the remaining rounds decide. */
  lemma PollTurn(look: Look, base: seq<Event>, done: seq<Event>, total: nat, n: nat)
    requires 0 < n <= total
    requires Polling(look, base, total) == Resume(Polling(look, base + done, n), done)
    ensures var q := look(base + done);
      var e := q.events + [Sleep(PollPauseMs)];
      base + done + q.events == base + (done + q.events) &&
      base + done + e == base + (done + e) &&
      (UsbReady(q.value) ==> Polling(look, base, total) == Out(Some(q.value.serial), done + q.events)) &&
      (!UsbReady(q.value) ==> Polling(look, base, total) == Resume(Polling(look, base + (done + e), n - 1), done + e))
  {
    var q := look(base + done);
    var e := q.events + [Sleep(PollPauseMs)];
    Assoc(base, done, q.events);
    Assoc(base, done, e);
    if !UsbReady(q.value) {
      var rest := Polling(look, base + done + e, n - 1).events;
      assert done + (e + rest) == done + e + rest;
    }
  }

  /** `look` is `quest_state()` on the host `h`. */
  ghost predicate Looks(look: Look, h: Host) {
    forall p {:trigger QuestStateF(h, p)} :: look(p) == QuestStateF(h, p)
  }

  /** Step 2 of `wireless_auto`: the loop with its `break`. `look` is
      `quest_state()` on this host; the loop's reasoning keeps it abstract
      and looks at one round per turn. */
  method Poll(adb: Adb, ghost look: Look) returns (usb: Option<string>)
    requires Looks(look, adb.host)
    modifies adb
    ensures usb == Polling(look, old(adb.trace), PollRounds).value
    ensures adb.trace == old(adb.trace) + Polling(look, old(adb.trace), PollRounds).events
  {
    ghost var base := adb.trace;
    ghost var done: seq<Event> := [];
    var round := 0;
    assert base + done == base && done + Polling(look, base, PollRounds).events == Polling(look, base, PollRounds).events;
    while round < PollRounds
      invariant 0 <= round <= PollRounds
      invariant adb.trace == base + done
      invariant Polling(look, base, PollRounds) == Resume(Polling(look, base + done, PollRounds - round), done)
    {
      ghost var q := look(adb.trace);
      PollTurn(look, base, done, PollRounds, PollRounds - round);
      var p := QuestState(adb);
      if UsbReady(p) {
        return Some(p.serial);
      }
      adb.Pause(PollPauseMs);
      done := done + (q.events + [Sleep(PollPauseMs)]);
      round := round + 1;
    }
    assert done + [] == done;
    return None;
  }

  /** `adb connect` and the check of its answer. */
  method Connect(adb: Adb, ip: string) returns (outcome: Outcome)
    modifies adb
    ensures outcome == ConnectF(adb.host, old(adb.trace), ip).value
    ensures adb.trace == old(adb.trace) + ConnectF(adb.host, old(adb.trace), ip).events
  {
    var target := ip + ":" + WirelessPort;
    var out := adb.Run(ConnectCmd(target));
    var txt := Lower(out.stdout + out.stderr);
    if out.code != 0 || (!Contains(txt, "connected to") && !Contains(txt, "already connected")) {
      return Outcome(false, ConnectFailed(target, out.stdout, out.stderr));
    }
    return Outcome(true, Connected(target));
  }

  /** Step 4: the pause, `_wifi_ip`, and its one retry. */
  method Resolve(adb: Adb, usb: string) returns (ip: Option<string>)
    modifies adb
    ensures ip == ResolveF(adb.host, old(adb.trace), usb).value
    ensures adb.trace == old(adb.trace) + ResolveF(adb.host, old(adb.trace), usb).events
  {
    ghost var past := adb.trace;
    adb.Pause(SettleMs);
    ip := WifiIp(adb, usb);
    ghost var first := WifiIpF(adb.host, past + [Sleep(SettleMs)], usb);
    Assoc(past, [Sleep(SettleMs)], first.events);
    if ip.Some? {
      QuadNotEmpty(ip.value);
    }
    if ip.None? || ip.value == [] {
      ghost var e1 := [Sleep(SettleMs)] + first.events;
      adb.Pause(SettleMs);
      Assoc(past, e1, [Sleep(SettleMs)]);
      ip := WifiIp(adb, usb);
      Assoc(past, e1 + [Sleep(SettleMs)], WifiIpF(adb.host, past + (e1 + [Sleep(SettleMs)]), usb).events);
    }
  }

  /** Steps 3 to 5 of `wireless_auto` on the cabled device `usb`. */
  method Switch(adb: Adb, usb: string) returns (outcome: Outcome)
    modifies adb
    ensures outcome == SwitchF(adb.host, old(adb.trace), usb).value
    ensures adb.trace == old(adb.trace) + SwitchF(adb.host, old(adb.trace), usb).events
  {
    ghost var past := adb.trace;
    var out := adb.Run(TcpipCmd(usb));
    if out.code != 0 {
      return Outcome(false, TcpipFailed(out.stdout, out.stderr));
    }
    ghost var e1 := [Cmd(TcpipCmd(usb))];
    var ip := Resolve(adb, usb);
    ghost var r := ResolveF(adb.host, past + e1, usb);
    ghost var e2 := e1 + r.events;
    Assoc(past, e1, r.events);
    if ip.Some? {
      QuadNotEmpty(ip.value);
    }
    if ip.None? || ip.value == [] {
      var diagRoute := adb.Run(DiagRouteCmd(usb));
      Assoc(past, e2, [Cmd(DiagRouteCmd(usb))]);
      var diagAddr := adb.Run(DiagAddrCmd(usb));
      Assoc(past, e2 + [Cmd(DiagRouteCmd(usb))], [Cmd(DiagAddrCmd(usb))]);
      assert e2 + [Cmd(DiagRouteCmd(usb))] + [Cmd(DiagAddrCmd(usb))] ==
             e2 + [Cmd(DiagRouteCmd(usb)), Cmd(DiagAddrCmd(usb))];
      return Outcome(false, NoWifiIp(diagRoute.stdout, diagAddr.stdout));
    }
    outcome := Connect(adb, ip.value);
    Assoc(past, e2, ConnectF(adb.host, past + e2, ip.value).events);
  }

  /** `wireless_auto()`. */
  method WirelessAuto(adb: Adb) returns (outcome: Outcome)
    modifies adb
    ensures outcome == WirelessAutoF(adb.host, old(adb.trace)).value
    ensures adb.trace == old(adb.trace) + WirelessAutoF(adb.host, old(adb.trace)).events
  {
    ghost var past := adb.trace;
    var p := QuestState(adb);
    if p.Row? && p.transport == Wifi && p.state == "device" {
      return Outcome(true, AlreadyWireless(p.serial));
    }
    ghost var q := QuestStateF(adb.host, past);
    var usb := Poll(adb, QuestLook(adb.host));
    ghost var e1 := q.events + PollF(adb.host, past + q.events, PollRounds).events;
    Assoc(past, q.events, PollF(adb.host, past + q.events, PollRounds).events);
    if usb.None? || usb.value == [] {
      return Outcome(false, NoUsbDevice);
    }
    outcome := Switch(adb, usb.value);
    Assoc(past, e1, SwitchF(adb.host, past + e1, usb.value).events);
  }

  /** The two commands of `wireless_disconnect`, when the device is wireless. */
  method DisconnectFrom(adb: Adb, dev: Option<string>) returns (outcome: Outcome)
    modifies adb
    ensures outcome == DisconnectStep(dev).value
    ensures adb.trace == old(adb.trace) + DisconnectStep(dev).events
  {
    if dev.Some? && IsIpSerial(dev.value) {
      var r1 := adb.Run(DisconnectCmd(dev.value));
      var r2 := adb.Run(UsbCmd);
      assert old(adb.trace) + [Cmd(DisconnectCmd(dev.value))] + [Cmd(UsbCmd)] ==
             old(adb.trace) + [Cmd(DisconnectCmd(dev.value)), Cmd(UsbCmd)];
      return Outcome(true, Disconnected(dev.value));
    }
    assert adb.trace + [] == adb.trace;
    return Outcome(false, NothingToDisconnect);
  }

  /** `wireless_disconnect()`. */
  method WirelessDisconnect(adb: Adb) returns (outcome: Outcome)
    modifies adb
    ensures outcome == WirelessDisconnectF(adb.host, old(adb.trace)).value
    ensures adb.trace == old(adb.trace) + WirelessDisconnectF(adb.host, old(adb.trace)).events
  {
    ghost var past := adb.trace;
    ghost var q := QuestStateF(adb.host, past);
    var dev := FirstDevice(adb);
    outcome := DisconnectFrom(adb, dev);
    Assoc(past, q.events, DisconnectStep(dev).events);
  }

  // ----- the poll -----

  /** Every look reads the listing at most once. */
  ghost predicate ListsOnce(look: Look) {
    forall p :: look(p).events == [] || look(p).events == [Cmd(ListCmd)]
  }

  /** The poll issues nothing but listings and its pauses. */
  lemma {:induction false} PollingIssues(look: Look, past: seq<Event>, n: nat)
    requires ListsOnce(look)
    ensures forall e :: e in Polling(look, past, n).events ==> e == Cmd(ListCmd) || e == Sleep(PollPauseMs)
    decreases n
  {
    if n > 0 && !UsbReady(look(past).value) {
      PollingIssues(look, past + (look(past).events + [Sleep(PollPauseMs)]), n - 1);
    }
  }

  lemma LookCount(look: Look, p: seq<Event>)
    requires ListsOnce(look)
    ensures CountCmd(look(p).events, ListCmd) <= 1
  {
    if look(p).events != [] {
      assert look(p).events == [Cmd(ListCmd)];
      assert look(p).events[1..] == [];
    }
  }

  /** It reads the listing at most once per round. */
  lemma {:induction false} PollingLooks(look: Look, past: seq<Event>, n: nat)
    requires ListsOnce(look)
    ensures CountCmd(Polling(look, past, n).events, ListCmd) <= n
    decreases n, 1
  {
    if n > 0 {
      if UsbReady(look(past).value) {
        LookCount(look, past);
      } else {
        PollingLooksCons(look, past, n);
      }
    }
  }

  lemma {:induction false} PollingLooksCons(look: Look, past: seq<Event>, n: nat)
    requires ListsOnce(look) && n > 0 && !UsbReady(look(past).value)
    ensures CountCmd(Polling(look, past, n).events, ListCmd) <= n
    decreases n, 0
  {
    var e := look(past).events + [Sleep(PollPauseMs)];
    PollingLooks(look, past + e, n - 1);
    LooksThenRest(look, past, look(past).events, Polling(look, past + e, n - 1).events, Polling(look, past, n).events, n);
  }

  /** The count over one round's look, its pause and the remaining rounds. */
  lemma LooksThenRest(look: Look, past: seq<Event>, first: seq<Event>, rest: seq<Event>, all: seq<Event>, n: nat)
    requires ListsOnce(look) && first == look(past).events
    requires all == first + [Sleep(PollPauseMs)] + rest
    requires 0 < n && CountCmd(rest, ListCmd) <= n - 1
    ensures CountCmd(all, ListCmd) <= n
  {
    LookCount(look, past);
    assert CountCmd([Sleep(PollPauseMs)], ListCmd) == 0;
    CountCmdAppend(first, [Sleep(PollPauseMs)], ListCmd);
    CountCmdAppend(first + [Sleep(PollPauseMs)], rest, ListCmd);
  }

  /** It accepts only a cabled device in state "device", seen by one of its looks. */
  lemma {:induction false} PollingAccepts(look: Look, past: seq<Event>, n: nat)
    ensures Polling(look, past, n).value.Some? ==>
      exists p :: UsbReady(look(p).value) && look(p).value.serial == Polling(look, past, n).value.value
    decreases n
  {
    if n > 0 {
      var q := look(past);
      if UsbReady(q.value) {
        assert UsbReady(look(past).value) && look(past).value.serial == Polling(look, past, n).value.value;
      } else {
        PollingAccepts(look, past + (q.events + [Sleep(PollPauseMs)]), n - 1);
      }
    }
  }

  /** When no look shows a cabled device ready, the poll finds nothing and
      looks `n` times. */
  lemma {:induction false} PollingBlocked(look: Look, past: seq<Event>, n: nat)
    requires forall p :: !UsbReady(look(p).value)
    ensures Polling(look, past, n).value.None?
    ensures |Polling(look, past, n).events| >= n
    decreases n
  {
    if n > 0 {
      PollingBlocked(look, past + (look(past).events + [Sleep(PollPauseMs)]), n - 1);
    }
  }

  lemma QuestLookListsOnce(h: Host)
    ensures ListsOnce(QuestLook(h))
    ensures Looks(QuestLook(h), h)
  {
  }

  /** With no adb at all every look is empty: the poll only pauses. */
  lemma {:induction false} PollingIdle(look: Look, past: seq<Event>, n: nat)
    requires forall p :: look(p) == Out(NoRow, [])
    ensures Polling(look, past, n) == Out(None, seq(n, k => Sleep(PollPauseMs)))
    decreases n
  {
    if n > 0 {
      PollingIdle(look, past + ([] + [Sleep(PollPauseMs)]), n - 1);
      assert [] + [Sleep(PollPauseMs)] + seq(n - 1, k => Sleep(PollPauseMs)) == seq(n, k => Sleep(PollPauseMs));
    }
  }

  /** Step 2 as it runs in `wireless_auto`: at most `PollRounds` listings
      and its pauses, nothing else, and a serial only from a look that
      showed a cabled device in state "device". */
  lemma PollShape(h: Host, past: seq<Event>)
    ensures var o := PollF(h, past, PollRounds);
      (forall e :: e in o.events ==> e == Cmd(ListCmd) || e == Sleep(PollPauseMs)) &&
      CountCmd(o.events, ListCmd) <= PollRounds &&
      (o.value.Some? ==> exists p :: UsbReady(QuestStateF(h, p).value) && QuestStateF(h, p).value.serial == o.value.value)
  {
    QuestLookListsOnce(h);
    PollingIssues(QuestLook(h), past, PollRounds);
    PollingLooks(QuestLook(h), past, PollRounds);
    PollingAccepts(QuestLook(h), past, PollRounds);
  }

  // ----- the verdict on `adb connect` -----

  /** The run ends with `adb connect <target>`, and the answer to it has exit
      code 0 and one of the two success phrases. */
  predicate ConnectAccepted(h: Host, past: seq<Event>, es: seq<Event>) {
    es != [] && es[|es| - 1].Cmd? && |es[|es| - 1].argv| == 2 && es[|es| - 1].argv[0] == "connect" &&
    ConnectOk(h.respond(past + es))
  }

  lemma ShiftAccepted(h: Host, past: seq<Event>, pre: seq<Event>, es: seq<Event>)
    requires es != []
    ensures ConnectAccepted(h, past, pre + es) <==> ConnectAccepted(h, past + pre, es)
  {
    assert (pre + es)[|pre + es| - 1] == es[|es| - 1];
    Assoc(past, pre, es);
  }

  /** `connect` succeeds exactly when its answer says so, and then the
      target is the address with the wireless port. */
  lemma ConnectSpec(h: Host, past: seq<Event>, ip: string)
    ensures var o := ConnectF(h, past, ip);
      (o.value.ok <==> ConnectAccepted(h, past, o.events)) &&
      (o.value.ok <==> o.value.message.Connected?) &&
      (!o.value.ok ==> o.value.message.ConnectFailed?) &&
      (o.value.ok ==> o.value.message.target == ip + ":" + WirelessPort)
  {
  }

  /** The address with the wireless port is a network serial. */
  lemma TargetIsIpSerial(ip: string)
    requires IsDottedQuad(ip)
    ensures IsIpSerial(ip + ":" + WirelessPort)
  {
    assert IsDecimal(WirelessPort, 2, 5);
    QuadWithPortIsIpSerial(ip, WirelessPort);
  }

  /** Steps 3 to 5: the first command is `tcpip`; when it fails nothing else
      runs; the flow succeeds exactly when it ends with an accepted
      `connect` to a network serial. */
  lemma SwitchSpec(h: Host, past: seq<Event>, usb: string)
    ensures var o := SwitchF(h, past, usb);
      o.events != [] && o.events[0] == Cmd(TcpipCmd(usb)) &&
      (o.value.message.TcpipFailed? <==> Answer(h, past, TcpipCmd(usb)).code != 0) &&
      (o.value.message.TcpipFailed? ==> o.events == [Cmd(TcpipCmd(usb))]) &&
      !o.value.message.AlreadyWireless? && !o.value.message.NoUsbDevice? &&
      (o.value.ok <==> ConnectAccepted(h, past, o.events)) &&
      (o.value.ok ==> o.value.message.Connected? && IsIpSerial(o.value.message.target)) &&
      var ip := ResolveF(h, past + [Cmd(TcpipCmd(usb))], usb);
      (o.value.message.NoWifiIp? <==> Answer(h, past, TcpipCmd(usb)).code == 0 && ip.value.None?) &&
      (o.value.ok ==> ip.value.Some? && o.value.message.target == ip.value.value + ":" + WirelessPort)
  {
    var e1 := [Cmd(TcpipCmd(usb))];
    if Answer(h, past, TcpipCmd(usb)).code == 0 {
      var ip := ResolveF(h, past + e1, usb);
      var e2 := e1 + ip.events;
      if ip.value.Some? {
        var c := ConnectF(h, past + e2, ip.value.value);
        ConnectSpec(h, past + e2, ip.value.value);
        TargetIsIpSerial(ip.value.value);
        ShiftAccepted(h, past, e2, c.events);
        assert SwitchF(h, past, usb).events == e2 + c.events;
      } else {
        var es := e2 + [Cmd(DiagRouteCmd(usb)), Cmd(DiagAddrCmd(usb))];
        assert es[|es| - 1] == Cmd(DiagAddrCmd(usb));
      }
    }
  }

  // ----- quantitative bounds on the probes -----

  /** The events of `_wifi_ip` on `usb` hold the default-route probe of no
      other serial. */
  lemma WifiIpRoutes(h: Host, past: seq<Event>, usb: string, u: string)
    ensures CountCmd(WifiIpF(h, past, usb).events, RouteCmd(u)) == if u == usb then 1 else 0
  {
    if u == usb {
      RouteOnce(h, past, usb);
    } else {
      WifiIpOnSerial(h, past, usb);
      assert !OnSerial(usb, Cmd(RouteCmd(u)));
    }
  }

  /** The address step probes the default route at most twice. */
  lemma ResolveRoutes(h: Host, past: seq<Event>, usb: string, u: string)
    ensures CountCmd(ResolveF(h, past, usb).events, RouteCmd(u)) <= 2
  {
    var first := WifiIpF(h, past + [Sleep(SettleMs)], usb);
    WifiIpRoutes(h, past + [Sleep(SettleMs)], usb, u);
    CountCmdAppend([Sleep(SettleMs)], first.events, RouteCmd(u));
    var e1 := [Sleep(SettleMs)] + first.events;
    if first.value.None? {
      var second := WifiIpF(h, past + (e1 + [Sleep(SettleMs)]), usb);
      WifiIpRoutes(h, past + (e1 + [Sleep(SettleMs)]), usb, u);
      CountCmdAppend(e1, [Sleep(SettleMs)], RouteCmd(u));
      CountCmdAppend(e1 + [Sleep(SettleMs)], second.events, RouteCmd(u));
    }
  }

  /** The retry: the second pause and `_wifi_ip` happen exactly when the
      first `_wifi_ip` finds nothing, so the route is probed once after a hit
      and twice after a miss. */
  lemma ResolveSpec(h: Host, past: seq<Event>, usb: string)
    ensures var o := ResolveF(h, past, usb);
      var first := WifiIpF(h, past + [Sleep(SettleMs)], usb);
      var e1 := [Sleep(SettleMs)] + first.events;
      var second := WifiIpF(h, past + (e1 + [Sleep(SettleMs)]), usb);
      (first.value.Some? ==> o == Out(first.value, e1)) &&
      (first.value.None? ==> o.value == second.value && o.events == e1 + [Sleep(SettleMs)] + second.events) &&
      CountCmd(o.events, RouteCmd(usb)) == if first.value.Some? then 1 else 2
  {
    var first := WifiIpF(h, past + [Sleep(SettleMs)], usb);
    WifiIpRoutes(h, past + [Sleep(SettleMs)], usb, usb);
    CountCmdAppend([Sleep(SettleMs)], first.events, RouteCmd(usb));
    var e1 := [Sleep(SettleMs)] + first.events;
    if first.value.None? {
      var second := WifiIpF(h, past + (e1 + [Sleep(SettleMs)]), usb);
      WifiIpRoutes(h, past + (e1 + [Sleep(SettleMs)]), usb, usb);
      CountCmdAppend(e1, [Sleep(SettleMs)], RouteCmd(usb));
      CountCmdAppend(e1 + [Sleep(SettleMs)], second.events, RouteCmd(usb));
    }
  }

  /** A count is not raised by events around it that are other commands. */
  lemma CountBetween(a: seq<Event>, b: seq<Event>, c: seq<Event>, argv: seq<string>)
    requires Cmd(argv) !in a && Cmd(argv) !in c
    ensures CountCmd(a + b + c, argv) == CountCmd(b, argv)
  {
    CountCmdAppend(a, b, argv);
    CountCmdAppend(a + b, c, argv);
  }

  /** The commands of `wireless_auto` that are not part of `_wifi_ip` are
      told apart from its route probe. */
  lemma CommandsDiffer(usb: string, u: string)
    ensures TcpipCmd(usb) != RouteCmd(u) && DiagRouteCmd(usb) != RouteCmd(u)
    ensures DiagAddrCmd(usb) != RouteCmd(u) && ListCmd != RouteCmd(u)
  {
    assert |TcpipCmd(usb)| == 4 && |DiagRouteCmd(usb)| == 5 && |RouteCmd(u)| == 7;
    assert DiagAddrCmd(usb)[4] == "-o" && RouteCmd(u)[4] == "route";
  }

  lemma SwitchRoutes(h: Host, past: seq<Event>, usb: string, u: string)
    ensures CountCmd(SwitchF(h, past, usb).events, RouteCmd(u)) <= 2
  {
    var e1 := [Cmd(TcpipCmd(usb))];
    CommandsDiffer(usb, u);
    if Answer(h, past, TcpipCmd(usb)).code == 0 {
      var ip := ResolveF(h, past + e1, usb);
      ResolveRoutes(h, past + e1, usb, u);
      var e2 := e1 + ip.events;
      if ip.value.None? {
        var tail := [Cmd(DiagRouteCmd(usb)), Cmd(DiagAddrCmd(usb))];
        CommandsDiffer(usb, u);
        CountBetween(e1, ip.events, tail, RouteCmd(u));
        assert SwitchF(h, past, usb).events == e1 + ip.events + tail;
      } else {
        var tail := ConnectF(h, past + e2, ip.value.value).events;
        CountBetween(e1, ip.events, tail, RouteCmd(u));
        assert SwitchF(h, past, usb).events == e1 + ip.events + tail;
      }
    } else {
      assert SwitchF(h, past, usb).events == e1;
    }
  }

  // ----- `wireless_auto` as a whole -----

  /** Listings and pauses only. */
  ghost predicate Waiting(es: seq<Event>) {
    forall e :: e in es ==> e == Cmd(ListCmd) || e == Sleep(PollPauseMs)
  }

  /** The steps after the poll, for the run as a whole: how it ends, what it
      issues, and when it succeeds. */
  lemma ProceedSpec(h: Host, past: seq<Event>, e1: seq<Event>, usb: Option<string>)
    requires Waiting(e1)
    ensures var o := ProceedF(h, past, e1, usb);
      !o.value.message.AlreadyWireless? &&
      (usb.None? ==> o == Out(Outcome(false, NoUsbDevice), e1)) &&
      (o.value.message.NoUsbDevice? <==> usb.None? || usb.value == []) &&
      (o.value.message.NoUsbDevice? ==> o.events == e1) &&
      (o.value.ok <==> ConnectAccepted(h, past, o.events)) &&
      (o.value.ok ==> o.value.message.Connected? && IsIpSerial(o.value.message.target)) &&
      (o.value.message.TcpipFailed? ==>
         usb.Some? && o.events == e1 + [Cmd(TcpipCmd(usb.value))] &&
         Answer(h, past + e1, TcpipCmd(usb.value)).code != 0)
  {
    if usb.None? || usb.value == [] {
      NoConnectAmong(h, past, e1);
    } else {
      SwitchSpec(h, past + e1, usb.value);
      ShiftAccepted(h, past, e1, SwitchF(h, past + e1, usb.value).events);
    }
  }

  lemma ProceedRoutes(h: Host, past: seq<Event>, e1: seq<Event>, usb: Option<string>, u: string)
    requires Waiting(e1)
    ensures CountCmd(ProceedF(h, past, e1, usb).events, RouteCmd(u)) <= 2
  {
    if usb.None? || usb.value == [] {
      RoutesAfterListings(e1, [], u);
      assert e1 + [] == e1;
    } else {
      SwitchRoutes(h, past + e1, usb.value, u);
      RoutesAfterListings(e1, SwitchF(h, past + e1, usb.value).events, u);
    }
  }

  /** The listing and the poll together issue listings and pauses only,
      at most one listing more than the poll's rounds. */
  lemma WaitSpec(h: Host, past: seq<Event>)
    ensures var q := QuestStateF(h, past); var poll := PollF(h, past + q.events, PollRounds);
      Waiting(q.events + poll.events) && CountCmd(q.events + poll.events, ListCmd) <= 1 + PollRounds
  {
    var q := QuestStateF(h, past);
    var poll := PollF(h, past + q.events, PollRounds);
    PollShape(h, past + q.events);
    CountCmdAppend(q.events, poll.events, ListCmd);
  }

  /** Already wireless: success after one listing, and no other command. */
  lemma AutoShortCircuit(h: Host, past: seq<Event>)
    ensures var o := WirelessAutoF(h, past); var q := QuestStateF(h, past);
      (o.value.message.AlreadyWireless? <==> WifiReady(q.value)) &&
      (WifiReady(q.value) ==> o.value == Outcome(true, AlreadyWireless(q.value.serial)) && o.events == [Cmd(ListCmd)])
  {
    var q := QuestStateF(h, past);
    if !WifiReady(q.value) {
      var poll := PollF(h, past + q.events, PollRounds);
      WaitSpec(h, past);
      ProceedSpec(h, past, q.events + poll.events, poll.value);
    }
  }

  /** Without a cabled device the flow gives up having only listed devices
      and paused, at most once more than the poll's rounds. */
  lemma AutoNoUsb(h: Host, past: seq<Event>)
    ensures var o := WirelessAutoF(h, past);
      var q := QuestStateF(h, past);
      var poll := PollF(h, past + q.events, PollRounds);
      (!WifiReady(q.value) && poll.value.None? ==> o == Out(Outcome(false, NoUsbDevice), q.events + poll.events)) &&
      (o.value.message.NoUsbDevice? <==> !WifiReady(q.value) && poll.value.None?) &&
      (o.value.message.NoUsbDevice? ==>
        !o.value.ok && Waiting(o.events) && CountCmd(o.events, ListCmd) <= 1 + PollRounds)
  {
    var q := QuestStateF(h, past);
    if !WifiReady(q.value) {
      var poll := PollF(h, past + q.events, PollRounds);
      WaitSpec(h, past);
      ProceedSpec(h, past, q.events + poll.events, poll.value);
      PollingAccepts(QuestLook(h), past + q.events, PollRounds);
      if poll.value.Some? {
        var p :| UsbReady(QuestLook(h)(p).value) && QuestLook(h)(p).value.serial == poll.value.value;
        QuestStateTagged(h, p);
      }
    }
  }

  /** A failed `adb tcpip` is the last command of the run; before it there are
      only listings and pauses. */
  lemma AutoTcpipStops(h: Host, past: seq<Event>)
    ensures var o := WirelessAutoF(h, past);
      o.value.message.TcpipFailed? ==>
        o.events != [] &&
        (exists u :: o.events[|o.events| - 1] == Cmd(TcpipCmd(u)) &&
           Answer(h, past + o.events[..|o.events| - 1], TcpipCmd(u)).code != 0) &&
        forall k :: 0 <= k < |o.events| - 1 ==> o.events[k] == Cmd(ListCmd) || o.events[k] == Sleep(PollPauseMs)
  {
    var q := QuestStateF(h, past);
    if !WifiReady(q.value) {
      var poll := PollF(h, past + q.events, PollRounds);
      var e1 := q.events + poll.events;
      WaitSpec(h, past);
      ProceedSpec(h, past, e1, poll.value);
      var o := ProceedF(h, past, e1, poll.value);
      if o.value.message.TcpipFailed? {
        TcpipLast(o.events, e1, poll.value.value);
      }
    }
  }

  lemma TcpipLast(es: seq<Event>, e1: seq<Event>, usb: string)
    requires es == e1 + [Cmd(TcpipCmd(usb))]
    requires Waiting(e1)
    ensures es != [] && es[..|es| - 1] == e1 && es[|es| - 1] == Cmd(TcpipCmd(usb))
    ensures forall k :: 0 <= k < |es| - 1 ==> es[k] == Cmd(ListCmd) || es[k] == Sleep(PollPauseMs)
  {
    assert es[..|es| - 1] == e1;
    forall k | 0 <= k < |es| - 1 ensures es[k] == Cmd(ListCmd) || es[k] == Sleep(PollPauseMs) {
      assert es[k] == e1[k] && e1[k] in e1;
    }
  }

  /** `_wifi_ip` runs at most twice: no serial's default route is probed
      more than twice in one run. */
  lemma AutoRoutes(h: Host, past: seq<Event>, u: string)
    ensures CountCmd(WirelessAutoF(h, past).events, RouteCmd(u)) <= 2
  {
    var q := QuestStateF(h, past);
    if WifiReady(q.value) {
      RoutesAfterListings(q.events, [], u);
      assert q.events + [] == q.events;
    } else {
      var poll := PollF(h, past + q.events, PollRounds);
      WaitSpec(h, past);
      ProceedRoutes(h, past, q.events + poll.events, poll.value, u);
    }
  }

  /** Listings and pauses hold no route probe. */
  lemma RoutesAfterListings(e1: seq<Event>, rest: seq<Event>, u: string)
    requires Waiting(e1)
    requires CountCmd(rest, RouteCmd(u)) <= 2
    ensures CountCmd(e1 + rest, RouteCmd(u)) <= 2
  {
    CommandsDiffer(u, u);
    assert Cmd(RouteCmd(u)) !in e1;
    CountCmdAppend(e1, rest, RouteCmd(u));
  }

  /** A run of listings and pauses does not end with `adb connect`. */
  lemma NoConnectAmong(h: Host, past: seq<Event>, es: seq<Event>)
    requires Waiting(es)
    ensures !ConnectAccepted(h, past, es)
  {
    if es != [] {
      assert es[|es| - 1] in es;
    }
  }

  /** `wireless_auto` succeeds exactly when the headset was already wireless
      or the run ends with an accepted `adb connect`; a fresh connection is
      always to a network serial. */
  lemma AutoSuccess(h: Host, past: seq<Event>)
    ensures var o := WirelessAutoF(h, past); var q := QuestStateF(h, past);
      (o.value.ok <==> WifiReady(q.value) || ConnectAccepted(h, past, o.events)) &&
      (o.value.ok && !WifiReady(q.value) ==> o.value.message.Connected? && IsIpSerial(o.value.message.target))
  {
    var q := QuestStateF(h, past);
    if !WifiReady(q.value) {
      var poll := PollF(h, past + q.events, PollRounds);
      WaitSpec(h, past);
      ProceedSpec(h, past, q.events + poll.events, poll.value);
    }
  }

  /** Without the adb executable nothing runs: three pauses, then failure. */
  lemma AutoWithoutAdb(h: Host, past: seq<Event>)
    requires !h.adbPresent
    ensures WirelessAutoF(h, past) ==
      Out(Outcome(false, NoUsbDevice), [Sleep(PollPauseMs), Sleep(PollPauseMs), Sleep(PollPauseMs)])
  {
    assert forall p :: QuestLook(h)(p) == Out(NoRow, []);
    PollingIdle(QuestLook(h), past, PollRounds);
    assert seq(PollRounds, k => Sleep(PollPauseMs)) == [Sleep(PollPauseMs), Sleep(PollPauseMs), Sleep(PollPauseMs)];
  }

  /** On a host whose listing does not change, a pick of a wireless row that
      is not in state "device" (a stale or offline network entry; such a
      row is picked whenever the listing has one, see
      `Registry.QuestStateTagged`) recurs on every look of the poll, so a
      ready cable is never taken and no `tcpip` runs. */
  lemma StaleWifiRowBlocks(h: Host, past: seq<Event>)
    requires Canned(h)
    ensures var p := QuestStateF(h, past).value;
      p.Row? && p.transport == Wifi && p.state != "device" ==>
        WirelessAutoF(h, past).value == Outcome(false, NoUsbDevice)
  {
    var q := QuestStateF(h, past);
    forall p ensures QuestStateF(h, p) == q {
      assert Answer(h, p, ListCmd) == Answer(h, past, ListCmd);
    }
    if q.value.Row? && q.value.transport == Wifi && q.value.state != "device" {
      PollingBlocked(QuestLook(h), past + q.events, PollRounds);
    }
  }

  // ----- `wireless_disconnect` as a whole -----

  /** `wireless_disconnect` acts exactly when the listing holds a network
      serial: then it disconnects the first such device and switches adb
      back to the cable; otherwise it issues nothing after the listing. */
  lemma DisconnectSpec(h: Host, past: seq<Event>)
    ensures var o := WirelessDisconnectF(h, past); var q := QuestStateF(h, past);
      var rs := Listing(DevicesOutputF(h, past).value);
      (o.value.ok <==> exists j :: 0 <= j < |rs| && IsIpSerial(rs[j].serial)) &&
      (o.value.ok ==>
         IsIpSerial(q.value.serial) && o.value.message == Disconnected(q.value.serial) &&
         o.events == q.events + [Cmd(DisconnectCmd(q.value.serial)), Cmd(UsbCmd)]) &&
      (!o.value.ok ==> o.value.message == NothingToDisconnect && o.events == q.events)
  {
    QuestStateTagged(h, past);
    assert QuestStateF(h, past).events + [] == QuestStateF(h, past).events;
  }
}
