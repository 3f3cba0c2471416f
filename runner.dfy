/** The boundary between the engine and the outside world: every external
    effect of app/scrcpy_runner.py goes through `_run` (one `adb` invocation)
    or `time.sleep`. Here the device side is an oracle, `Host.respond`, that
    answers each command given the whole history of commands and sleeps that
    led up to it; the engine's observable behaviour is the trace of events
    it produces and the value it returns. */
module Runner {

  /** `subprocess.CompletedProcess`: exit code and the two captured texts. */
  datatype RunResult = RunResult(code: int, stdout: string, stderr: string)

  /** One observable step: an `adb` invocation (its arguments after the
      executable path) or a `time.sleep` of `ms` milliseconds. */
  datatype Event = Cmd(argv: seq<string>) | Sleep(ms: nat)

  /** What the outside world looks like to the engine: whether the adb
      executable exists (checked only by `_devices_output`) and how the
      device answers each command, given the history ending in that command. */
  datatype Host = Host(adbPresent: bool, respond: seq<Event> -> RunResult)

  /** The value an operation returns and the events it issued, in order. */
  datatype Out<T> = Out(value: T, events: seq<Event>)

  /** `WIRELESS_PORT`. */
  const WirelessPort: string := "5555"

  /** The answer to `argv` issued after the history `past`. */
  function Answer(h: Host, past: seq<Event>, argv: seq<string>): RunResult {
    h.respond(past + [Cmd(argv)])
  }

  /** A host whose answers depend only on the command itself, not on what
      happened before: the "map from argv to a canned result". */
  ghost predicate Canned(h: Host) {
    forall p1: seq<Event>, p2: seq<Event>, argv: seq<string> ::
      h.respond(p1 + [Cmd(argv)]) == h.respond(p2 + [Cmd(argv)])
  }

  /** The arguments of `adb devices -l`. */
  const ListCmd: seq<string> := ["devices", "-l"]

  /** How many events of `es` are the command `argv`. */
  function CountCmd(es: seq<Event>, argv: seq<string>): (n: nat)
    ensures n <= |es|
    ensures n == 0 <==> Cmd(argv) !in es
  {
    if es == [] then 0
    else (if es[0] == Cmd(argv) then 1 else 0) + CountCmd(es[1..], argv)
  }

  lemma {:induction false} CountCmdAppend(a: seq<Event>, b: seq<Event>, argv: seq<string>)
    ensures CountCmd(a + b, argv) == CountCmd(a, argv) + CountCmd(b, argv)
  {
    if a != [] {
      assert (a + b)[1..] == a[1..] + b && (a + b)[0] == a[0];
      CountCmdAppend(a[1..], b, argv);
    } else {
      assert a + b == b;
    }
  }

  /** `_devices_output()`: the text of `adb devices -l`, or "" without running
      anything when the adb executable is missing. */
  function DevicesOutputF(h: Host, past: seq<Event>): (o: Out<string>)
    ensures !h.adbPresent <==> o.events == []
    ensures !h.adbPresent ==> o.value == ""
    ensures h.adbPresent ==> o.value == Answer(h, past, ListCmd).stdout && o.events == [Cmd(ListCmd)]
  {
    if !h.adbPresent then Out("", []) else Out(Answer(h, past, ListCmd).stdout, [Cmd(ListCmd)])
  }

  /** The outcome of a later part of a run, preceded by the events `done`
      of the part before it. */
  function Resume<T>(o: Out<T>, done: seq<Event>): (r: Out<T>)
    ensures r.value == o.value && |r.events| == |done| + |o.events|
  {
    Out(o.value, done + o.events)
  }

  lemma Assoc(a: seq<Event>, b: seq<Event>, c: seq<Event>)
    ensures a + b + c == a + (b + c)
  {
  }

  /** The adb tool and the device behind it, as the engine sees them through
      `_run`: every call appends its event to `trace`. */
  class Adb {
    const host: Host
    var trace: seq<Event>

    constructor(h: Host)
      ensures host == h && trace == []
    {
      host := h;
      trace := [];
    }

    /** `_run([ADB] + argv)`. */
    method Run(argv: seq<string>) returns (r: RunResult)
      modifies this
      ensures r == Answer(host, old(trace), argv)
      ensures trace == old(trace) + [Cmd(argv)]
    {
      r := host.respond(trace + [Cmd(argv)]);
      trace := trace + [Cmd(argv)];
    }

    /** `_devices_output()`. */
    method DevicesOutput() returns (text: string)
      modifies this
      ensures text == DevicesOutputF(host, old(trace)).value
      ensures trace == old(trace) + DevicesOutputF(host, old(trace)).events
    {
      if !host.adbPresent {
        return "";
      }
      var r := Run(ListCmd);
      text := r.stdout;
    }

    /** `time.sleep(ms / 1000)`. */
    method Pause(ms: nat)
      modifies this
      ensures trace == old(trace) + [Sleep(ms)]
    {
      trace := trace + [Sleep(ms)];
    }
  }
}
