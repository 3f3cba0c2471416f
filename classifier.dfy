/** The connection-state classifier `status` and the renderer-name mapping
    `_map_renderer_name` of app/scrcpy_runner.py: both are decision tables
    over their inputs. */
module Classifier {
  import opened Wrappers
  import opened Text
  import opened Registry

  /** The connection states of the application. `status` reports the first
      three; `Casting` is the state the user interface shows while a mirror
      is running, which `status` itself never produces. */
  datatype ConnState = NoDevice | Pairing | Ready | Casting

  /** The `"state"` value of the dictionary `status` returns. */
  function StateName(s: ConnState): (name: string)
    ensures name == "none" <==> s.NoDevice?
    ensures name == "pairing" <==> s.Pairing?
    ensures name == "ready" <==> s.Ready?
    ensures name == "casting" <==> s.Casting?
  {
    match s
    case NoDevice => "none"
    case Pairing => "pairing"
    case Ready => "ready"
    case Casting => "casting"
  }

  /** Distinct states have distinct names. */
  lemma StateNameInjective(a: ConnState, b: ConnState)
    ensures StateName(a) == StateName(b) <==> a == b
  {
  }

  /** How the device is attached, as the message words it. */
  datatype Side = Wireless | Wired

  /** The `"text"` value, kept abstract: which message, with the parts of
      it that depend on the device. */
  datatype Message =
    | NoDeviceMsg                          // no device connected
    | ApprovalMsg(side: Side)              // seen, but the ADB prompt is not accepted
    | OfflineMsg(side: Side)               // seen in state offline: reconnect
    | ConnectedMsg(side: Side, serial: string)
    | UndeterminedMsg                      // any other state

  datatype Report = Report(state: ConnState, text: Message)

  /** The side a transport tag is worded as: "wifi" wireless, anything else wired. */
  function SideOf(p: Primary): Side {
    if p.Row? && p.transport == Wifi then Wireless else Wired
  }

  /** `status` given the result of `quest_state`. A missing or empty serial
      means no device; then the state decides, the transport only the wording. */
  function Status(p: Primary): (r: Report)
    ensures r.state != Casting
    ensures r.state == Pairing <==> p.Row? && p.serial != [] && p.state == "unauthorized"
    ensures r.state == Ready <==> p.Row? && p.serial != [] && p.state == "device"
    ensures r.state == NoDevice <==> p.NoRow? || p.serial == [] || p.state !in ["unauthorized", "device"]
    ensures r.state == Ready ==> r.text == ConnectedMsg(SideOf(p), p.serial)
  {
    if p.NoRow? || p.serial == [] then Report(NoDevice, NoDeviceMsg)
    else if p.state == "unauthorized" then Report(Pairing, ApprovalMsg(SideOf(p)))
    else if p.state == "offline" then Report(NoDevice, OfflineMsg(SideOf(p)))
    else if p.state == "device" then Report(Ready, ConnectedMsg(SideOf(p), p.serial))
    else Report(NoDevice, UndeterminedMsg)
  }

  /** What `status` says about a whole listing: the first wireless row decides
      whenever there is one, so a wireless row that is not ready hides a
      ready wired row below it; with no wireless row the first row decides. */
  lemma StatusOfRows(rs: seq<Entry>)
    requires forall j :: 0 <= j < |rs| ==> rs[j].serial != []
    ensures Status(PrimaryOf(rs)).state == Ready <==>
      (exists j :: 0 <= j < |rs| && IsWifiRow(rs[j]) && rs[j].state == "device" &&
         forall i :: 0 <= i < j ==> !IsWifiRow(rs[i])) ||
      (rs != [] && rs[0].state == "device" && forall i :: 0 <= i < |rs| ==> !IsWifiRow(rs[i]))
  {
    PrimaryOfSpec(rs);
    var p := PrimaryOf(rs);
    if p.Row? {
      var j :| 0 <= j < |rs| && rs[j].serial == p.serial && rs[j].state == p.state &&
        IsWifiRow(rs[j]) == (p.transport == Wifi) &&
        forall i :: 0 <= i < j ==> IsWifiRow(rs[i]) != (p.transport == Wifi);
      if p.transport == Wifi {
        forall j' | 0 <= j' < |rs| && IsWifiRow(rs[j']) && forall i :: 0 <= i < j' ==> !IsWifiRow(rs[i])
          ensures j' == j
        {
        }
      }
    }
  }

  /** The same over the text of a listing. */
  lemma StatusOfListing(text: string)
    ensures var rs := Listing(text);
      Status(PrimaryOf(rs)).state == Ready <==>
      (exists j :: 0 <= j < |rs| && IsWifiRow(rs[j]) && rs[j].state == "device" &&
         forall i :: 0 <= i < j ==> !IsWifiRow(rs[i])) ||
      (rs != [] && rs[0].state == "device" && forall i :: 0 <= i < |rs| ==> !IsWifiRow(rs[i]))
  {
    StatusOfRows(Listing(text));
  }

  /** `_map_renderer_name`: `(human_name or "").strip().lower()` starting with
      "open" selects the OpenGL driver, anything else Direct3D. */
  function RendererName(humanName: Option<string>): (driver: string)
    ensures driver in ["opengl", "direct3d"]
  {
    var name := Lower(Strip(if humanName.Some? then humanName.value else ""));
    if StartsWith(name, "open") then "opengl" else "direct3d"
  }

  /** The choice is case-blind and ignores surrounding whitespace: "opengl"
      exactly when the stripped name begins with the letters o, p, e, n in
      either case; no name at all selects Direct3D. */
  lemma RendererNameSpec(humanName: Option<string>)
    ensures humanName.None? ==> RendererName(humanName) == "direct3d"
    ensures var t := Strip(if humanName.Some? then humanName.value else "");
      RendererName(humanName) == "opengl" <==>
        |t| >= 4 && (t[0] == 'o' || t[0] == 'O') && (t[1] == 'p' || t[1] == 'P') &&
        (t[2] == 'e' || t[2] == 'E') && (t[3] == 'n' || t[3] == 'N')
  {
    var t := Strip(if humanName.Some? then humanName.value else "");
    var name := Lower(t);
    OpenPrefix(name);
    if |t| >= 4 {
      LowerCharIs(t[0], 'o');
      LowerCharIs(t[1], 'p');
      LowerCharIs(t[2], 'e');
      LowerCharIs(t[3], 'n');
    }
  }

  lemma OpenPrefix(name: string)
    ensures StartsWith(name, "open") <==>
      |name| >= 4 && name[0] == 'o' && name[1] == 'p' && name[2] == 'e' && name[3] == 'n'
  {
    if |name| >= 4 {
      assert name[..4] == [name[0], name[1], name[2], name[3]];
    }
  }

  lemma LowerCharIs(c: char, l: char)
    requires 'a' <= l <= 'z'
    ensures LowerChar(c) == l <==> c == l || c as int == l as int - 32
  {
  }
}
