/** The wireless-address resolver of app/scrcpy_runner.py: `_list_wlan_ifaces`,
    `_get_ip_from_iface` and `_wifi_ip`, an ordered chain of strategies each of
    which runs one shell command on the device and searches its output. */
module Resolver {
  import opened Wrappers
  import opened Text
  import opened Patterns
  import opened Runner

  // ----- the commands -----

  /** `adb -s <serial> shell <args>`. */
  function Shell(serial: string, args: seq<string>): seq<string> {
    ["-s", serial, "shell"] + args
  }

  function RouteCmd(serial: string): seq<string> {
    Shell(serial, ["ip", "route", "get", "8.8.8.8"])
  }

  function LinkCmd(serial: string): seq<string> {
    Shell(serial, ["ip", "-o", "link", "show"])
  }

  function AddrCmd(serial: string, iface: string): seq<string> {
    Shell(serial, ["ip", "-o", "-4", "addr", "show", "dev", iface])
  }

  function PropCmd(serial: string, iface: string): seq<string> {
    Shell(serial, ["getprop", "dhcp." + iface + ".ipaddress"])
  }

  function IfconfigCmd(serial: string, iface: string): seq<string> {
    Shell(serial, ["ifconfig", iface])
  }

  function AllPropsCmd(serial: string): seq<string> {
    Shell(serial, ["getprop"])
  }

  // ----- _list_wlan_ifaces: the parsing -----

  /** A wireless interface named by `ip -o link show`, and whether its flags say UP. */
  datatype Iface = Iface(name: string, up: bool)

  /** The interface a line names: the line split at ':' has at least three
      parts, the second one stripped starts with "wlan", and the third holds
      the flags. */
  function WlanOf(line: string): (c: Option<Iface>)
    ensures c.Some? ==> StartsWith(c.value.name, "wlan")
    ensures c.Some? <==> |SplitOn(line, ':')| >= 3 && StartsWith(Strip(SplitOn(line, ':')[1]), "wlan")
  {
    var parts := SplitOn(line, ':');
    if |parts| >= 3 && StartsWith(Strip(parts[1]), "wlan") then
      Some(Iface(Strip(parts[1]), Contains(parts[2], "UP")))
    else None
  }

  function WlanSeq(line: string): seq<Iface> {
    match WlanOf(line)
    case None => []
    case Some(c) => [c]
  }

  /** The interfaces the lines name, in input order. */
  function Candidates(lines: seq<string>): (cs: seq<Iface>)
    ensures forall j :: 0 <= j < |cs| ==> StartsWith(cs[j].name, "wlan")
  {
    if lines == [] then [] else WlanSeq(lines[0]) + Candidates(lines[1..])
  }

  /** The interfaces whose UP flag is `up`, in order. */
  function Keep(cs: seq<Iface>, up: bool): (ks: seq<Iface>)
    ensures |ks| <= |cs|
    ensures forall j :: 0 <= j < |ks| ==> ks[j].up == up
  {
    if cs == [] then []
    else (if cs[0].up == up then [cs[0]] else []) + Keep(cs[1..], up)
  }

  function Names(cs: seq<Iface>): (ns: seq<string>)
    ensures |ns| == |cs| && forall j :: 0 <= j < |cs| ==> ns[j] == cs[j].name
  {
    if cs == [] then [] else [cs[0].name] + Names(cs[1..])
  }

  /** `ifaces_up + ifaces_down`. */
  function Arranged(cs: seq<Iface>): seq<Iface> {
    Keep(cs, true) + Keep(cs, false)
  }

  /** The names `_list_wlan_ifaces` returns for the text of a successful `ip -o link show`. */
  function WlanOrderOf(text: string): seq<string> {
    Names(Arranged(Candidates(SplitLines(text))))
  }

  lemma {:induction false} CandidatesAppend(a: seq<string>, b: seq<string>)
    ensures Candidates(a + b) == Candidates(a) + Candidates(b)
  {
    if a == [] {
      assert a + b == b;
    } else {
      assert (a + b)[0] == a[0] && (a + b)[1..] == a[1..] + b;
      CandidatesAppend(a[1..], b);
    }
  }

  lemma {:induction false} KeepAppend(a: seq<Iface>, b: seq<Iface>, up: bool)
    ensures Keep(a + b, up) == Keep(a, up) + Keep(b, up)
  {
    if a == [] {
      assert a + b == b;
    } else {
      assert (a + b)[0] == a[0] && (a + b)[1..] == a[1..] + b;
      KeepAppend(a[1..], b, up);
    }
  }

  lemma {:induction false} NamesAppend(a: seq<Iface>, b: seq<Iface>)
    ensures Names(a + b) == Names(a) + Names(b)
  {
    if a == [] {
      assert a + b == b;
    } else {
      assert (a + b)[0] == a[0] && (a + b)[1..] == a[1..] + b;
      NamesAppend(a[1..], b);
    }
  }

  /** Splitting by the flag loses and invents nothing: the two groups together
      are a permutation of the candidates. */
  lemma {:induction false} ArrangedPermutation(cs: seq<Iface>)
    ensures multiset(Arranged(cs)) == multiset(cs)
  {
    if cs != [] {
      ArrangedPermutation(cs[1..]);
      assert cs == [cs[0]] + cs[1..];
    }
  }

  /** Every UP interface comes before every other one. */
  lemma UpFirst(cs: seq<Iface>)
    ensures var arr := Arranged(cs);
      forall a, b :: 0 <= a < b < |arr| && arr[b].up ==> arr[a].up
  {
    var up, down := Keep(cs, true), Keep(cs, false);
    var arr := up + down;
    forall a, b | 0 <= a < b < |arr| && arr[b].up ensures arr[a].up {
      assert arr[a] == up[a];
    }
  }

  /** Keeping one group twice changes nothing; keeping the other from it leaves nothing. */
  lemma {:induction false} KeepKeep(cs: seq<Iface>, up: bool, other: bool)
    ensures Keep(Keep(cs, up), other) == if up == other then Keep(cs, up) else []
  {
    if cs != [] {
      KeepKeep(cs[1..], up, other);
      var head := if cs[0].up == up then [cs[0]] else [];
      KeepAppend(head, Keep(cs[1..], up), other);
      if cs[0].up == up {
        assert Keep(head, other) == (if cs[0].up == other then [cs[0]] else []) + Keep([], other);
      }
    }
  }

  /** Within each group the input order is kept. */
  lemma Stable(cs: seq<Iface>, up: bool)
    ensures Keep(Arranged(cs), up) == Keep(cs, up)
  {
    KeepAppend(Keep(cs, true), Keep(cs, false), up);
    KeepKeep(cs, true, up);
    KeepKeep(cs, false, up);
  }

  /** The names `_list_wlan_ifaces` returns are the UP group's names, then the others'. */
  lemma WlanOrderGroups(text: string)
    ensures var cs := Candidates(SplitLines(text));
      WlanOrderOf(text) == Names(Keep(cs, true)) + Names(Keep(cs, false))
  {
    var cs := Candidates(SplitLines(text));
    NamesAppend(Keep(cs, true), Keep(cs, false));
  }

  /** They are exactly the names of the matching lines, rearranged. */
  lemma WlanOrderPermutation(text: string)
    ensures multiset(WlanOrderOf(text)) == multiset(Names(Candidates(SplitLines(text))))
  {
    var cs := Candidates(SplitLines(text));
    ArrangedNames(cs);
    NamesAppend(Keep(cs, true), Keep(cs, false));
  }

  /** Every one of them starts with "wlan". */
  lemma WlanOrderPrefix(text: string)
    ensures var ns := WlanOrderOf(text);
      forall j :: 0 <= j < |ns| ==> StartsWith(ns[j], "wlan")
  {
    var cs := Candidates(SplitLines(text));
    ArrangedPermutation(cs);
    var arr := Arranged(cs);
    forall j | 0 <= j < |arr| ensures StartsWith(arr[j].name, "wlan") {
      assert arr[j] in multiset(cs);
    }
  }

  /** The names of the two groups are a permutation of the candidates' names. */
  lemma {:induction false} ArrangedNames(cs: seq<Iface>)
    ensures multiset(Names(Keep(cs, true)) + Names(Keep(cs, false))) == multiset(Names(cs))
  {
    if cs != [] {
      var rest := cs[1..];
      ArrangedNames(rest);
      var u, d := Names(Keep(rest, true)), Names(Keep(rest, false));
      var n := cs[0].name;
      assert Names(cs) == [n] + Names(rest);
      KeepHead(cs, cs[0].up);
      MultisetCons(n, u, d);
    }
  }

  lemma MultisetCons(n: string, u: seq<string>, d: seq<string>)
    ensures multiset([n] + u + d) == multiset([n]) + multiset(u + d)
    ensures multiset(u + ([n] + d)) == multiset([n]) + multiset(u + d)
  {
  }

  /** The first interface joins its own group and not the other. */
  lemma KeepHead(cs: seq<Iface>, up: bool)
    requires cs != [] && cs[0].up == up
    ensures Keep(cs, up) == [cs[0]] + Keep(cs[1..], up)
    ensures Keep(cs, !up) == Keep(cs[1..], !up)
    ensures Names(Keep(cs, up)) == [cs[0].name] + Names(Keep(cs[1..], up))
  {
    assert [] + Keep(cs[1..], !up) == Keep(cs[1..], !up);
    var k := Keep(cs[1..], up);
    assert ([cs[0]] + k)[0] == cs[0] && ([cs[0]] + k)[1..] == k;
  }

  /** One more line of `ip -o link show`, seen by the list of its own group. */
  lemma WlanStep(lines: seq<string>, i: nat, up: bool)
    requires i < |lines|
    ensures var parts := SplitOn(lines[i], ':');
      Names(Keep(Candidates(lines[..i + 1]), up)) ==
        Names(Keep(Candidates(lines[..i]), up)) +
        if |parts| >= 3 && StartsWith(Strip(parts[1]), "wlan") && Contains(parts[2], "UP") == up
        then [Strip(parts[1])] else []
  {
    CandidatesSnoc(lines, i);
    var cs := Candidates(lines[..i]);
    var c := WlanSeq(lines[i]);
    KeepAppend(cs, c, up);
    NamesAppend(Keep(cs, up), Keep(c, up));
    LineGroup(lines[i], up);
  }

  lemma CandidatesSnoc(lines: seq<string>, i: nat)
    requires i < |lines|
    ensures Candidates(lines[..i + 1]) == Candidates(lines[..i]) + WlanSeq(lines[i])
  {
    assert lines[..i + 1] == lines[..i] + [lines[i]];
    CandidatesAppend(lines[..i], [lines[i]]);
    assert [lines[i]][1..] == [];
  }

  /** What one line adds to the group `up`. */
  lemma LineGroup(line: string, up: bool)
    ensures var parts := SplitOn(line, ':');
      Names(Keep(WlanSeq(line), up)) ==
        if |parts| >= 3 && StartsWith(Strip(parts[1]), "wlan") && Contains(parts[2], "UP") == up
        then [Strip(parts[1])] else []
  {
    var c := WlanSeq(line);
    if c != [] {
      assert c[1..] == [];
    }
  }

  /** `_list_wlan_ifaces`'s loop over the lines of a successful `ip -o link show`:
      each `wlan*` name is appended to the UP list or to the other one. */
  method WlanOrder(text: string) returns (names: seq<string>)
    ensures names == WlanOrderOf(text)
  {
    var lines := SplitLines(text);
    var ifacesUp: seq<string> := [];
    var ifacesDown: seq<string> := [];
    var i := 0;
    while i < |lines|
      invariant 0 <= i <= |lines|
      invariant ifacesUp == Names(Keep(Candidates(lines[..i]), true))
      invariant ifacesDown == Names(Keep(Candidates(lines[..i]), false))
    {
      WlanStep(lines, i, true);
      WlanStep(lines, i, false);
      var parts := SplitOn(lines[i], ':');
      if |parts| >= 3 {
        var name := Strip(parts[1]);
        if StartsWith(name, "wlan") {
          var flags := parts[2];
          if Contains(flags, "UP") {
            ifacesUp := ifacesUp + [name];
          } else {
            ifacesDown := ifacesDown + [name];
          }
        }
      }
      i := i + 1;
    }
    AllTaken(lines);
    WlanOrderGroups(text);
    names := ifacesUp + ifacesDown;
  }

  // ----- the strategies, against the device oracle -----

  /** `_list_wlan_ifaces(serial)` after the history `past`: nothing when
      `ip -o link show` fails. */
  function WlanIfacesF(h: Host, past: seq<Event>, serial: string): Out<seq<string>> {
    var r := Answer(h, past, LinkCmd(serial));
    Out(if r.code != 0 then [] else WlanOrderOf(r.stdout), [Cmd(LinkCmd(serial))])
  }

  /** One `ip -o link show`; a failure yields no names, a success a rearrangement
      of exactly the `wlan*` interfaces the listing names. */
  lemma WlanIfacesSpec(h: Host, past: seq<Event>, serial: string)
    ensures var o := WlanIfacesF(h, past, serial); var r := Answer(h, past, LinkCmd(serial));
      o.events == [Cmd(LinkCmd(serial))] &&
      (r.code != 0 ==> o.value == []) &&
      (r.code == 0 ==>
        multiset(o.value) == multiset(Names(Candidates(SplitLines(r.stdout)))) &&
        forall j :: 0 <= j < |o.value| ==> StartsWith(o.value[j], "wlan"))
  {
    var r := Answer(h, past, LinkCmd(serial));
    WlanOrderPermutation(r.stdout);
    WlanOrderPrefix(r.stdout);
  }

  /** What one strategy finds in the answer to its command: nothing when the
      command failed, else the address its pattern captures. */
  function Found(p: Pattern, r: RunResult): (m: Option<string>)
    ensures m.Some? ==> IsDottedQuad(m.value)
    ensures r.code != 0 ==> m == None
    ensures r.code == 0 ==> m == Search(p, r.stdout)
  {
    if r.code == 0 then Search(p, r.stdout) else None
  }

  /** The DHCP-property strategy: the stripped value, when it is a bare dotted quad. */
  function PropFound(r: RunResult): (m: Option<string>)
    ensures m.Some? ==> IsDottedQuad(m.value) && m.value == Strip(r.stdout)
    ensures r.code != 0 ==> m == None
    ensures r.code == 0 && IsDottedQuad(Strip(r.stdout)) ==> m == Some(Strip(r.stdout))
  {
    var val := Strip(r.stdout);
    BareQuadOfStripped(val);
    if r.code == 0 && IsBareQuad(val) then Some(val) else None
  }

  /** `_get_ip_from_iface(serial, iface)` after the history `past`: the
      `inet <quad>/` of `ip addr`, else the DHCP property, else the `inet`
      of `ifconfig`. */
  function IfaceIpF(h: Host, past: seq<Event>, serial: string, iface: string): (o: Out<Option<string>>)
    ensures o.value.Some? ==> IsDottedQuad(o.value.value)
  {
    var e1 := [Cmd(AddrCmd(serial, iface))];
    var addr := Found(AddrInet, Answer(h, past, AddrCmd(serial, iface)));
    if addr.Some? then Out(addr, e1)
    else
      var e2 := e1 + [Cmd(PropCmd(serial, iface))];
      var prop := PropFound(Answer(h, past + e1, PropCmd(serial, iface)));
      if prop.Some? then Out(prop, e2)
      else Out(Found(IfconfigInet, Answer(h, past + e2, IfconfigCmd(serial, iface))),
               e2 + [Cmd(IfconfigCmd(serial, iface))])
  }

  /** The three strategies run in order and stop at the first hit: the
      `ip addr` address when it has one, after only that command; else the
      DHCP property, after the two commands; else whatever `ifconfig`
      gives, after all three. */
  lemma IfaceIpOrder(h: Host, past: seq<Event>, serial: string, iface: string)
    ensures var o := IfaceIpF(h, past, serial, iface);
      var a, p, c := Cmd(AddrCmd(serial, iface)), Cmd(PropCmd(serial, iface)), Cmd(IfconfigCmd(serial, iface));
      var addr := Found(AddrInet, Answer(h, past, AddrCmd(serial, iface)));
      var prop := PropFound(Answer(h, past + [a], PropCmd(serial, iface)));
      if addr.Some? then o == Out(addr, [a])
      else if prop.Some? then o == Out(prop, [a, p])
      else o == Out(Found(IfconfigInet, Answer(h, past + [a, p], IfconfigCmd(serial, iface))), [a, p, c])
  {
    var a, p, c := Cmd(AddrCmd(serial, iface)), Cmd(PropCmd(serial, iface)), Cmd(IfconfigCmd(serial, iface));
    var o := IfaceIpF(h, past, serial, iface);
    var addr := Found(AddrInet, Answer(h, past, AddrCmd(serial, iface)));
    if addr.Some? {
      assert o == Out(addr, [a]);
    } else {
      var prop := PropFound(Answer(h, past + [a], PropCmd(serial, iface)));
      assert [a] + [p] == [a, p];
      if prop.Some? {
        assert o == Out(prop, [a, p]);
      } else {
        assert [a, p] + [c] == [a, p, c];
        assert o == Out(Found(IfconfigInet, Answer(h, past + [a, p], IfconfigCmd(serial, iface))), [a, p, c]);
      }
    }
  }

  /** One attempt on one interface after a history: its result and the events it issued. */
  type Attempt = (seq<Event>, string) -> Out<Option<string>>

  /** `for iface in wlans[i:]: ip = attempt(iface); if ip: return ip`, each
      attempt issued after the events of the ones before it. */
  function FirstFound(attempt: Attempt, past: seq<Event>, wlans: seq<string>, i: nat): (o: Out<Option<string>>)
    requires i <= |wlans|
    decreases |wlans| - i
  {
    if i == |wlans| then Out(None, [])
    else
      var first := attempt(past, wlans[i]);
      if first.value.Some? then first
      else Resume(FirstFound(attempt, past + first.events, wlans, i + 1), first.events)
  }

  /** What every attempt finds is a dotted quad. */
  ghost predicate FindsQuads(attempt: Attempt) {
    forall p, i :: attempt(p, i).value.Some? ==> IsDottedQuad(attempt(p, i).value.value)
  }

  /** Every attempt that finds nothing issues the event `mark(iface)`. */
  ghost predicate MarksMiss(attempt: Attempt, mark: string -> Event) {
    forall p, i :: attempt(p, i).value.None? ==> mark(i) in attempt(p, i).events
  }

  /** Every event of every attempt satisfies `ok`. */
  ghost predicate IssuesOnly(attempt: Attempt, ok: Event -> bool) {
    forall p, i, k :: 0 <= k < |attempt(p, i).events| ==> ok(attempt(p, i).events[k])
  }

  lemma {:induction false} FirstFoundQuad(attempt: Attempt, past: seq<Event>, wlans: seq<string>, i: nat)
    requires i <= |wlans|
    requires FindsQuads(attempt)
    ensures var o := FirstFound(attempt, past, wlans, i);
      o.value.Some? ==> IsDottedQuad(o.value.value)
    decreases |wlans| - i
  {
    if i < |wlans| && attempt(past, wlans[i]).value.None? {
      FirstFoundQuad(attempt, past + attempt(past, wlans[i]).events, wlans, i + 1);
    }
  }

  /** When no interface yields an address, every one of them was attempted to the end. */
  lemma {:induction false} FirstFoundMiss(attempt: Attempt, mark: string -> Event, past: seq<Event>, wlans: seq<string>, i: nat)
    requires i <= |wlans|
    requires MarksMiss(attempt, mark)
    ensures var o := FirstFound(attempt, past, wlans, i);
      o.value.None? ==> forall k :: i <= k < |wlans| ==> mark(wlans[k]) in o.events
    decreases |wlans| - i
  {
    if i < |wlans| {
      var first := attempt(past, wlans[i]);
      if first.value.None? {
        FirstFoundMiss(attempt, mark, past + first.events, wlans, i + 1);
        var o := FirstFound(attempt, past, wlans, i);
        var rest := FirstFound(attempt, past + first.events, wlans, i + 1).events;
        assert o.events == first.events + rest;
        forall k | i <= k < |wlans| && o.value.None? ensures mark(wlans[k]) in o.events {
          if k > i {
            assert mark(wlans[k]) in rest;
          } else {
            assert mark(wlans[i]) in first.events;
          }
        }
      }
    }
  }

  /** The attempts together issue only what each of them issues. */
  lemma {:induction false} FirstFoundIssues(attempt: Attempt, ok: Event -> bool, past: seq<Event>, wlans: seq<string>, i: nat)
    requires i <= |wlans|
    requires IssuesOnly(attempt, ok)
    ensures forall k :: 0 <= k < |FirstFound(attempt, past, wlans, i).events| ==>
      ok(FirstFound(attempt, past, wlans, i).events[k])
    decreases |wlans| - i
  {
    if i < |wlans| {
      var first := attempt(past, wlans[i]);
      if first.value.None? {
        FirstFoundIssues(attempt, ok, past + first.events, wlans, i + 1);
        var rest := FirstFound(attempt, past + first.events, wlans, i + 1).events;
        forall k | 0 <= k < |first.events + rest| ensures ok((first.events + rest)[k]) {
          if k >= |first.events| {
            assert (first.events + rest)[k] == rest[k - |first.events|];
          } else {
            assert (first.events + rest)[k] == first.events[k];
            assert ok(attempt(past, wlans[i]).events[k]);
          }
        }
      }
    }
  }

  /** The events of the attempts on `wlans[i..k]`, each after the ones before it. */
  ghost function Run(attempt: Attempt, past: seq<Event>, wlans: seq<string>, i: nat, k: nat): seq<Event>
    requires i <= k <= |wlans|
    decreases k - i
  {
    if i == k then []
    else
      var first := attempt(past, wlans[i]);
      first.events + Run(attempt, past + first.events, wlans, i + 1, k)
  }

  /** Every attempt on `wlans[i..k]`, each after the ones before it, finds nothing. */
  ghost predicate AllMiss(attempt: Attempt, past: seq<Event>, wlans: seq<string>, i: nat, k: nat)
    requires i <= k <= |wlans|
    decreases k - i
  {
    i == k ||
    (attempt(past, wlans[i]).value.None? &&
     AllMiss(attempt, past + attempt(past, wlans[i]).events, wlans, i + 1, k))
  }

  /** An address found by the scan is the hit of the attempt on some interface
      `k`, issued after the misses on every interface before it; the scan
      stops there. */
  lemma {:induction false} FirstFoundHit(attempt: Attempt, past: seq<Event>, wlans: seq<string>, i: nat)
    requires i <= |wlans|
    ensures FirstFound(attempt, past, wlans, i).value.Some? ==>
      exists k :: i <= k < |wlans| && AllMiss(attempt, past, wlans, i, k) &&
        var pre := Run(attempt, past, wlans, i, k);
        var hit := attempt(past + pre, wlans[k]);
        hit.value.Some? && FirstFound(attempt, past, wlans, i) == Out(hit.value, pre + hit.events)
    decreases |wlans| - i
  {
    if i < |wlans| {
      var first := attempt(past, wlans[i]);
      if first.value.Some? {
        assert past + [] == past && [] + first.events == first.events;
        assert AllMiss(attempt, past, wlans, i, i) && Run(attempt, past, wlans, i, i) == [];
      } else if FirstFound(attempt, past, wlans, i).value.Some? {
        var next := past + first.events;
        FirstFoundHit(attempt, next, wlans, i + 1);
        var k :| i + 1 <= k < |wlans| && AllMiss(attempt, next, wlans, i + 1, k) &&
          var pre := Run(attempt, next, wlans, i + 1, k);
          var hit := attempt(next + pre, wlans[k]);
          hit.value.Some? && FirstFound(attempt, next, wlans, i + 1) == Out(hit.value, pre + hit.events);
        var pre := Run(attempt, next, wlans, i + 1, k);
        assert Run(attempt, past, wlans, i, k) == first.events + pre;
        assert past + (first.events + pre) == next + pre;
        var hit := attempt(next + pre, wlans[k]);
        assert first.events + (pre + hit.events) == (first.events + pre) + hit.events;
      }
    }
  }

  /** When the scan finds nothing, every interface was attempted and missed,
      and the events are all of theirs, in order. */
  lemma {:induction false} FirstFoundNone(attempt: Attempt, past: seq<Event>, wlans: seq<string>, i: nat)
    requires i <= |wlans|
    ensures var o := FirstFound(attempt, past, wlans, i);
      o.value.None? <==> AllMiss(attempt, past, wlans, i, |wlans|)
    ensures var o := FirstFound(attempt, past, wlans, i);
      o.value.None? ==> o.events == Run(attempt, past, wlans, i, |wlans|)
    decreases |wlans| - i
  {
    if i < |wlans| {
      var first := attempt(past, wlans[i]);
      if first.value.None? {
        FirstFoundNone(attempt, past + first.events, wlans, i + 1);
      }
    }
  }

  /** `_get_ip_from_iface(serial, ·)` as an attempt. */
  function IfaceAttempt(h: Host, serial: string): Attempt {
    (p: seq<Event>, iface: string) => IfaceIpF(h, p, serial, iface)
  }

  /** A command of one of the per-interface strategies on `serial`. */
  predicate ProbeCmd(serial: string, e: Event) {
    e.Cmd? && |e.argv| >= 5 && e.argv[..3] == ["-s", serial, "shell"] &&
    (e.argv[3] == "getprop" || e.argv[3] == "ifconfig" || (e.argv[3] == "ip" && e.argv[4] == "-o"))
  }

  lemma IfaceCommands(serial: string, iface: string)
    ensures ProbeCmd(serial, Cmd(AddrCmd(serial, iface)))
    ensures ProbeCmd(serial, Cmd(PropCmd(serial, iface)))
    ensures ProbeCmd(serial, Cmd(IfconfigCmd(serial, iface)))
  {
    assert AddrCmd(serial, iface)[..3] == ["-s", serial, "shell"];
    assert PropCmd(serial, iface)[..3] == ["-s", serial, "shell"];
    assert IfconfigCmd(serial, iface)[..3] == ["-s", serial, "shell"];
  }

  /** Each prefix of the three strategies' commands is made of per-interface commands. */
  lemma StrategyPrefix(serial: string, iface: string, es: seq<Event>)
    requires var a, p, c := Cmd(AddrCmd(serial, iface)), Cmd(PropCmd(serial, iface)), Cmd(IfconfigCmd(serial, iface));
      es == [a] || es == [a, p] || es == [a, p, c]
    ensures forall k :: 0 <= k < |es| ==> ProbeCmd(serial, es[k])
  {
    IfaceCommands(serial, iface);
    forall k | 0 <= k < |es| ensures ProbeCmd(serial, es[k]) {
      if k == 0 {
        assert es[k] == Cmd(AddrCmd(serial, iface));
      } else if k == 1 {
        assert es[k] == Cmd(PropCmd(serial, iface));
      } else {
        assert es[k] == Cmd(IfconfigCmd(serial, iface));
      }
    }
  }

  /** One interface's attempt issues only per-interface commands, and
      reaches `ifconfig` when it finds nothing. */
  lemma IfaceIpEvents(h: Host, past: seq<Event>, serial: string, iface: string)
    ensures var o := IfaceIpF(h, past, serial, iface);
      (o.value.None? ==> Cmd(IfconfigCmd(serial, iface)) in o.events) &&
      forall k :: 0 <= k < |o.events| ==> ProbeCmd(serial, o.events[k])
  {
    var a, p, c := Cmd(AddrCmd(serial, iface)), Cmd(PropCmd(serial, iface)), Cmd(IfconfigCmd(serial, iface));
    var o := IfaceIpF(h, past, serial, iface);
    IfaceIpOrder(h, past, serial, iface);
    if Found(AddrInet, Answer(h, past, AddrCmd(serial, iface))).Some? {
      StrategyPrefix(serial, iface, [a]);
    } else if PropFound(Answer(h, past + [a], PropCmd(serial, iface))).Some? {
      StrategyPrefix(serial, iface, [a, p]);
    } else {
      assert o.events == [a, p, c] && o.events[2] == c;
      StrategyPrefix(serial, iface, [a, p, c]);
    }
  }

  /** The facts about one interface that the scan over all of them relies on. */
  lemma IfaceAttemptFacts(h: Host, serial: string)
    ensures FindsQuads(IfaceAttempt(h, serial))
    ensures MarksMiss(IfaceAttempt(h, serial), (i: string) => Cmd(IfconfigCmd(serial, i)))
    ensures IssuesOnly(IfaceAttempt(h, serial), (e: Event) => ProbeCmd(serial, e))
  {
    var attempt := IfaceAttempt(h, serial);
    forall p, i
      ensures attempt(p, i).value.None? ==> Cmd(IfconfigCmd(serial, i)) in attempt(p, i).events
      ensures forall k :: 0 <= k < |attempt(p, i).events| ==> ProbeCmd(serial, attempt(p, i).events[k])
    {
      IfaceIpEvents(h, p, serial, i);
      assert attempt(p, i) == IfaceIpF(h, p, serial, i);
    }
  }

  /** The scan over the interfaces in `_wifi_ip`. */
  function ProbeIfacesF(h: Host, past: seq<Event>, serial: string, wlans: seq<string>): (o: Out<Option<string>>)
    ensures o.value.Some? ==> IsDottedQuad(o.value.value)
  {
    IfaceAttemptFacts(h, serial);
    FirstFoundQuad(IfaceAttempt(h, serial), past, wlans, 0);
    FirstFound(IfaceAttempt(h, serial), past, wlans, 0)
  }

  /** A dotted quad is never empty, so `if ip:` is the same as "found". */
  lemma QuadNotEmpty(q: string)
    requires IsDottedQuad(q)
    ensures q != []
  {
  }

  /** When no interface yields an address, each was tried down to `ifconfig`;
      and the scan issues only per-interface commands. */
  lemma ProbeSpec(h: Host, past: seq<Event>, serial: string, wlans: seq<string>)
    ensures var o := ProbeIfacesF(h, past, serial, wlans);
      (o.value.None? ==> forall k :: 0 <= k < |wlans| ==> Cmd(IfconfigCmd(serial, wlans[k])) in o.events) &&
      forall k :: 0 <= k < |o.events| ==> ProbeCmd(serial, o.events[k])
  {
    IfaceAttemptFacts(h, serial);
    var mark := (i: string) => Cmd(IfconfigCmd(serial, i));
    FirstFoundMiss(IfaceAttempt(h, serial), mark, past, wlans, 0);
    FirstFoundIssues(IfaceAttempt(h, serial), (e: Event) => ProbeCmd(serial, e), past, wlans, 0);
  }

  /** The address the interface scan finds is the first hit: every interface
      before it was tried down to its last strategy and missed. */
  lemma ProbeHit(h: Host, past: seq<Event>, serial: string, wlans: seq<string>)
    ensures var o := ProbeIfacesF(h, past, serial, wlans);
      o.value.Some? ==>
        exists k :: 0 <= k < |wlans| && AllMiss(IfaceAttempt(h, serial), past, wlans, 0, k) &&
          var pre := Run(IfaceAttempt(h, serial), past, wlans, 0, k);
          o == Resume(IfaceIpF(h, past + pre, serial, wlans[k]), pre) && o.value.Some?
  {
    FirstFoundHit(IfaceAttempt(h, serial), past, wlans, 0);
  }

  /** The interfaces `_wifi_ip` scans after a missed route probe: the listed
      ones, or a blind `wlan0`, `wlan1` when none were listed. */
  function FallbackWlans(wlans: seq<string>): (r: seq<string>)
    ensures r != [] && (wlans != [] ==> r == wlans)
    ensures wlans == [] ==> r == ["wlan0", "wlan1"]
  {
    if wlans == [] then ["wlan0", "wlan1"] else wlans
  }

  /** `_wifi_ip(serial)` after the history `past`: the `src` of the default
      route, else the first interface that yields an address, else the first
      `dhcp.wlan*` lease among all properties. */
  function WifiIpF(h: Host, past: seq<Event>, serial: string): (o: Out<Option<string>>)
    ensures o.value.Some? ==> IsDottedQuad(o.value.value)
  {
    var e1 := [Cmd(RouteCmd(serial))];
    var route := Found(RouteSrc, Answer(h, past, RouteCmd(serial)));
    if route.Some? then Out(route, e1)
    else
      var w := WlanIfacesF(h, past + e1, serial);
      var e2 := e1 + w.events;
      var pr := ProbeIfacesF(h, past + e2, serial, FallbackWlans(w.value));
      var e3 := e2 + pr.events;
      if pr.value.Some? then Out(pr.value, e3)
      else Out(Found(DhcpLease, Answer(h, past + e3, AllPropsCmd(serial))), e3 + [Cmd(AllPropsCmd(serial))])
  }

  /** The route probe. */
  function RouteHit(h: Host, past: seq<Event>, serial: string): Option<string> {
    Found(RouteSrc, Answer(h, past, RouteCmd(serial)))
  }

  /** The interface scan after a missed route probe. */
  function ScanOf(h: Host, past: seq<Event>, serial: string): Out<Option<string>> {
    var e2 := [Cmd(RouteCmd(serial))] + WlanIfacesF(h, past + [Cmd(RouteCmd(serial))], serial).events;
    ProbeIfacesF(h, past + e2, serial, FallbackWlans(WlanIfacesF(h, past + [Cmd(RouteCmd(serial))], serial).value))
  }

  /** The route probe comes first, and a hit there ends the search: no other
      command is issued exactly when the probe finds an address. */
  lemma RouteFirst(h: Host, past: seq<Event>, serial: string)
    ensures var o := WifiIpF(h, past, serial);
      o.events != [] && o.events[0] == Cmd(RouteCmd(serial)) &&
      (RouteHit(h, past, serial).Some? <==> o.events == [Cmd(RouteCmd(serial))]) &&
      (RouteHit(h, past, serial).Some? ==> o.value == RouteHit(h, past, serial))
  {
    var o := WifiIpF(h, past, serial);
    if RouteHit(h, past, serial).None? {
      var w := WlanIfacesF(h, past + [Cmd(RouteCmd(serial))], serial);
      assert |[Cmd(RouteCmd(serial))] + w.events| == 2;
    }
  }

  /** The whole-property scan runs, as the last command, exactly when the
      route probe and every interface came up empty. */
  lemma LeaseScanLast(h: Host, past: seq<Event>, serial: string)
    ensures var o := WifiIpF(h, past, serial);
      (Cmd(AllPropsCmd(serial)) in o.events <==>
         RouteHit(h, past, serial).None? && ScanOf(h, past, serial).value.None?) &&
      (Cmd(AllPropsCmd(serial)) in o.events ==> o.events[|o.events| - 1] == Cmd(AllPropsCmd(serial)))
  {
    var o := WifiIpF(h, past, serial);
    var all := Cmd(AllPropsCmd(serial));
    NotProbeCmds(serial);
    if RouteHit(h, past, serial).None? {
      var w := WlanIfacesF(h, past + [Cmd(RouteCmd(serial))], serial);
      var pr := ScanOf(h, past, serial);
      ProbeSpec(h, past + ([Cmd(RouteCmd(serial))] + w.events), serial, FallbackWlans(w.value));
      var e3 := [Cmd(RouteCmd(serial))] + w.events + pr.events;
      assert all !in pr.events;
      assert all !in e3;
    }
  }

  /** The route probe, the link listing and the whole-property scan are not
      per-interface commands, and differ from each other. */
  lemma NotProbeCmds(serial: string)
    ensures !ProbeCmd(serial, Cmd(RouteCmd(serial)))
    ensures !ProbeCmd(serial, Cmd(AllPropsCmd(serial)))
    ensures Cmd(RouteCmd(serial)) != Cmd(AllPropsCmd(serial)) && Cmd(LinkCmd(serial)) != Cmd(AllPropsCmd(serial))
    ensures Cmd(LinkCmd(serial)) != Cmd(RouteCmd(serial))
  {
    assert RouteCmd(serial)[4] == "route" && LinkCmd(serial)[4] == "-o";
  }

  /** `_wifi_ip` probes the default route exactly once. */
  lemma RouteOnce(h: Host, past: seq<Event>, serial: string)
    ensures CountCmd(WifiIpF(h, past, serial).events, RouteCmd(serial)) == 1
  {
    var route := Cmd(RouteCmd(serial));
    NotProbeCmds(serial);
    if RouteHit(h, past, serial).None? {
      var w := WlanIfacesF(h, past + [route], serial);
      var pr := ScanOf(h, past, serial);
      ProbeSpec(h, past + ([route] + w.events), serial, FallbackWlans(w.value));
      assert route !in pr.events;
      CountCmdAppend([route], w.events, RouteCmd(serial));
      CountCmdAppend([route] + w.events, pr.events, RouteCmd(serial));
      if pr.value.None? {
        CountCmdAppend([route] + w.events + pr.events, [Cmd(AllPropsCmd(serial))], RouteCmd(serial));
      }
    }
  }

  /** A shell command run on the device `serial`. */
  predicate OnSerial(serial: string, e: Event) {
    e.Cmd? && |e.argv| >= 3 && e.argv[..3] == ["-s", serial, "shell"]
  }

  /** Every command `_wifi_ip(serial)` issues is a shell command on `serial`. */
  lemma WifiIpOnSerial(h: Host, past: seq<Event>, serial: string)
    ensures var es := WifiIpF(h, past, serial).events;
      forall k :: 0 <= k < |es| ==> OnSerial(serial, es[k])
  {
    var o := WifiIpF(h, past, serial);
    var route := Cmd(RouteCmd(serial));
    assert RouteCmd(serial)[..3] == ["-s", serial, "shell"];
    if RouteHit(h, past, serial).None? {
      var w := WlanIfacesF(h, past + [route], serial);
      var pr := ScanOf(h, past, serial);
      assert LinkCmd(serial)[..3] == ["-s", serial, "shell"];
      assert AllPropsCmd(serial)[..3] == ["-s", serial, "shell"];
      ProbeSpec(h, past + ([route] + w.events), serial, FallbackWlans(w.value));
      var e2 := [route] + w.events;
      OnSerialConcat(serial, e2, pr.events);
      if pr.value.None? {
        OnSerialConcat(serial, e2 + pr.events, [Cmd(AllPropsCmd(serial))]);
      }
    }
  }

  /** Shell commands on `serial`, in two runs one after the other. */
  lemma OnSerialConcat(serial: string, a: seq<Event>, b: seq<Event>)
    requires forall k :: 0 <= k < |a| ==> OnSerial(serial, a[k])
    requires forall k :: 0 <= k < |b| ==> ProbeCmd(serial, b[k]) || OnSerial(serial, b[k])
    ensures forall k :: 0 <= k < |a + b| ==> OnSerial(serial, (a + b)[k])
  {
  }

  /** Nothing is found only when every strategy ran and missed: the route
      probe, each interface down to `ifconfig`, and the property scan. */
  lemma WifiIpMiss(h: Host, past: seq<Event>, serial: string)
    ensures var o := WifiIpF(h, past, serial);
      var wlans := FallbackWlans(WlanIfacesF(h, past + [Cmd(RouteCmd(serial))], serial).value);
      o.value.None? ==>
        RouteHit(h, past, serial).None? &&
        (forall k :: 0 <= k < |wlans| ==> Cmd(IfconfigCmd(serial, wlans[k])) in o.events) &&
        Cmd(AllPropsCmd(serial)) in o.events
  {
    var o := WifiIpF(h, past, serial);
    if o.value.None? {
      var w := WlanIfacesF(h, past + [Cmd(RouteCmd(serial))], serial);
      var wlans := FallbackWlans(w.value);
      var e2 := [Cmd(RouteCmd(serial))] + w.events;
      var pr := ScanOf(h, past, serial);
      ProbeSpec(h, past + e2, serial, wlans);
      assert o.events == e2 + pr.events + [Cmd(AllPropsCmd(serial))];
      forall k | 0 <= k < |wlans| ensures Cmd(IfconfigCmd(serial, wlans[k])) in o.events {
        assert Cmd(IfconfigCmd(serial, wlans[k])) in pr.events;
      }
    }
  }

  /** The answer is the first strategy's hit: the interface scan's when the
      route probe missed, and otherwise what the property scan, the last
      command issued, found in its answer. */
  lemma WifiIpPicks(h: Host, past: seq<Event>, serial: string)
    ensures var o := WifiIpF(h, past, serial);
      (RouteHit(h, past, serial).None? && ScanOf(h, past, serial).value.Some? ==>
         o.value == ScanOf(h, past, serial).value) &&
      (RouteHit(h, past, serial).None? && ScanOf(h, past, serial).value.None? ==>
         o.events != [] && o.value == Found(DhcpLease, h.respond(past + o.events)))
  {
    var o := WifiIpF(h, past, serial);
    if RouteHit(h, past, serial).None? && ScanOf(h, past, serial).value.None? {
      var w := WlanIfacesF(h, past + [Cmd(RouteCmd(serial))], serial);
      var e3 := [Cmd(RouteCmd(serial))] + w.events + ScanOf(h, past, serial).events;
      assert o.events == e3 + [Cmd(AllPropsCmd(serial))];
      assert past + e3 + [Cmd(AllPropsCmd(serial))] == past + o.events;
    }
  }

  // ----- the procedures, issuing their commands through `adb` -----

  /** `_list_wlan_ifaces(serial)`. */
  method WlanIfaces(adb: Adb, serial: string) returns (names: seq<string>)
    modifies adb
    ensures names == WlanIfacesF(adb.host, old(adb.trace), serial).value
    ensures adb.trace == old(adb.trace) + WlanIfacesF(adb.host, old(adb.trace), serial).events
  {
    var out := adb.Run(LinkCmd(serial));
    if out.code != 0 {
      return [];
    }
    names := WlanOrder(out.stdout);
  }

  /** `_get_ip_from_iface(serial, iface)`. */
  method IfaceIp(adb: Adb, serial: string, iface: string) returns (ip: Option<string>)
    modifies adb
    ensures ip == IfaceIpF(adb.host, old(adb.trace), serial, iface).value
    ensures adb.trace == old(adb.trace) + IfaceIpF(adb.host, old(adb.trace), serial, iface).events
  {
    ghost var past := adb.trace;
    var out := adb.Run(AddrCmd(serial, iface));
    if out.code == 0 {
      var m := Search(AddrInet, out.stdout);
      if m.Some? {
        return m;
      }
    }
    out := adb.Run(PropCmd(serial, iface));
    ghost var e2 := [Cmd(AddrCmd(serial, iface))] + [Cmd(PropCmd(serial, iface))];
    Assoc(past, [Cmd(AddrCmd(serial, iface))], [Cmd(PropCmd(serial, iface))]);
    if out.code == 0 {
      var val := Strip(out.stdout);
      if IsBareQuad(val) {
        return Some(val);
      }
    }
    out := adb.Run(IfconfigCmd(serial, iface));
    Assoc(past, e2, [Cmd(IfconfigCmd(serial, iface))]);
    if out.code == 0 {
      var m := Search(IfconfigInet, out.stdout);
      if m.Some? {
        return m;
      }
    }
    return None;
  }

  /** One turn of the loop over the interfaces: an attempt that finds an
      address ends the scan with it; one that does not leaves the rest to do. */
  lemma ScanTurn(attempt: Attempt, base: seq<Event>, done: seq<Event>, wlans: seq<string>, i: nat)
    requires i < |wlans|
    requires FirstFound(attempt, base, wlans, 0) == Resume(FirstFound(attempt, base + done, wlans, i), done)
    ensures var step := attempt(base + done, wlans[i]);
      base + done + step.events == base + (done + step.events) &&
      (step.value.Some? ==> FirstFound(attempt, base, wlans, 0) == Out(step.value, done + step.events)) &&
      (step.value.None? ==>
         FirstFound(attempt, base, wlans, 0) ==
           Resume(FirstFound(attempt, base + (done + step.events), wlans, i + 1), done + step.events))
  {
    var step := attempt(base + done, wlans[i]);
    Assoc(base, done, step.events);
    if step.value.None? {
      var rest := FirstFound(attempt, base + done + step.events, wlans, i + 1).events;
      assert done + (step.events + rest) == done + step.events + rest;
    }
  }

  /** The loop of `_wifi_ip` over the interfaces, returning at the first address. */
  method ScanIfaces(adb: Adb, serial: string, wlans: seq<string>) returns (found: Option<string>)
    modifies adb
    ensures found == ProbeIfacesF(adb.host, old(adb.trace), serial, wlans).value
    ensures adb.trace == old(adb.trace) + ProbeIfacesF(adb.host, old(adb.trace), serial, wlans).events
  {
    ghost var attempt := IfaceAttempt(adb.host, serial);
    ghost var base := adb.trace;
    ghost var done: seq<Event> := [];
    var i := 0;
    assert base + done == base;
    while i < |wlans|
      invariant 0 <= i <= |wlans|
      invariant adb.trace == base + done
      invariant FirstFound(attempt, base, wlans, 0) == Resume(FirstFound(attempt, base + done, wlans, i), done)
    {
      ghost var step := attempt(adb.trace, wlans[i]);
      found := IfaceIp(adb, serial, wlans[i]);
      ScanTurn(attempt, base, done, wlans, i);
      if found.Some? {
        return found;
      }
      done := done + step.events;
      i := i + 1;
    }
    assert done + [] == done;
    return None;
  }

  /** `_wifi_ip(serial)`, with its early returns. */
  method WifiIp(adb: Adb, serial: string) returns (ip: Option<string>)
    modifies adb
    ensures ip == WifiIpF(adb.host, old(adb.trace), serial).value
    ensures adb.trace == old(adb.trace) + WifiIpF(adb.host, old(adb.trace), serial).events
  {
    ghost var past := adb.trace;
    var out := adb.Run(RouteCmd(serial));
    if out.code == 0 {
      var m := Search(RouteSrc, out.stdout);
      if m.Some? {
        return m;
      }
    }
    ghost var e1 := [Cmd(RouteCmd(serial))];
    var wlans := WlanIfaces(adb, serial);
    ghost var e2 := e1 + WlanIfacesF(adb.host, past + e1, serial).events;
    Assoc(past, e1, WlanIfacesF(adb.host, past + e1, serial).events);
    if wlans == [] {
      wlans := ["wlan0", "wlan1"];
    }
    ip := ScanIfaces(adb, serial, wlans);
    ghost var e3 := e2 + ProbeIfacesF(adb.host, past + e2, serial, wlans).events;
    Assoc(past, e2, ProbeIfacesF(adb.host, past + e2, serial, wlans).events);
    if ip.Some? {
      return ip;
    }
    out := adb.Run(AllPropsCmd(serial));
    Assoc(past, e3, [Cmd(AllPropsCmd(serial))]);
    if out.code == 0 {
      var m := Search(DhcpLease, out.stdout);
      if m.Some? {
        return m;
      }
    }
    return None;
  }
}
