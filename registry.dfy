/** The device-listing parser and registry: `quest_state`, `adb_devices`,
    `first_device_or_none` and `first_usb_device_or_none` read the text of
    `adb devices -l`, skip its header line and any line with fewer than two
    whitespace fields, and take the first field as the serial and the
    second as the state. */
module Registry {
  import opened Wrappers
  import opened Text
  import opened Patterns
  import opened Runner

  /** One row of the listing: its first two whitespace-separated fields, and
      whether `_is_ip_serial` holds of the serial, decided when the row is read. */
  datatype Entry = Entry(serial: string, state: string, wireless: bool)

  /** The tag `quest_state` gives a row: "wifi" for a network serial, "usb" otherwise. */
  datatype Transport = Wifi | Usb

  /** What `quest_state` returns: a tagged row, or `(None, "", None)`. */
  datatype Primary = NoRow | Row(transport: Transport, state: string, serial: string)

  /** The listing lines after the header: `text.splitlines()[1:]`. */
  function Body(text: string): (lines: seq<string>)
    ensures forall j :: 0 <= j < |lines| ==> NoLineBreak(lines[j])
  {
    var out := SplitLines(text);
    if out == [] then [] else out[1..]
  }

  /** The row a line yields, or `None` when `line.split()` has fewer than two parts. */
  function RowOf(line: string): (e: Option<Entry>)
    ensures e.Some? <==> |Fields(line)| >= 2
    ensures e.Some? ==> e.value.serial != [] && NoSpace(e.value.serial)
    ensures e.Some? ==> e.value == Entry(Fields(line)[0], Fields(line)[1], IsIpSerial(Fields(line)[0]))
  {
    var parts := Fields(line);
    if |parts| < 2 then None else Some(Entry(parts[0], parts[1], IsIpSerial(parts[0])))
  }

  function RowSeq(line: string): seq<Entry> {
    match RowOf(line)
    case None => []
    case Some(e) => [e]
  }

  /** The rows of the lines, in order. */
  function Rows(lines: seq<string>): (rs: seq<Entry>)
    ensures |rs| <= |lines|
    ensures forall j :: 0 <= j < |rs| ==> rs[j].serial != [] && NoSpace(rs[j].serial)
  {
    if lines == [] then [] else RowSeq(lines[0]) + Rows(lines[1..])
  }

  /** The rows of a whole listing text. */
  function Listing(text: string): seq<Entry> {
    Rows(Body(text))
  }

  lemma {:induction false} RowsAppend(a: seq<string>, b: seq<string>)
    ensures Rows(a + b) == Rows(a) + Rows(b)
  {
    if a == [] {
      assert a + b == b;
    } else {
      assert (a + b)[0] == a[0] && (a + b)[1..] == a[1..] + b;
      RowsAppend(a[1..], b);
    }
  }

  /** What the loops over the lines rely on: one more line adds its row, if any. */
  lemma RowsSnoc(lines: seq<string>, i: nat)
    requires i < |lines|
    ensures Rows(lines[..i + 1]) == Rows(lines[..i]) + RowSeq(lines[i])
  {
    assert lines[..i + 1] == lines[..i] + [lines[i]];
    RowsAppend(lines[..i], [lines[i]]);
    assert [lines[i]][1..] == [];
  }

  /** A line with fewer than two fields contributes nothing, wherever it stands. */
  lemma ShortLineIgnored(a: seq<string>, line: string, b: seq<string>)
    requires |Fields(line)| < 2
    ensures Rows(a + [line] + b) == Rows(a + b)
  {
    RowsAppend(a + [line], b);
    RowsAppend(a, [line]);
    RowsAppend(a, b);
    RowsSingle(line);
  }

  lemma RowsSingle(line: string)
    ensures Rows([line]) == RowSeq(line)
  {
    assert [line][1..] == [];
  }

  /** The line length of a header followed by a newline. */
  lemma {:induction false} LineLengthOf(header: string, rest: string)
    requires NoLineBreak(header)
    ensures LineLength(header + ['\n'] + rest) == |header|
  {
    if header != [] {
      var s := header + ['\n'] + rest;
      assert s[0] == header[0];
      assert s[1..] == header[1..] + ['\n'] + rest;
      LineLengthOf(header[1..], rest);
    }
  }

  /** The header line is skipped: whatever the first line holds, the rows
      come from the lines after it. */
  lemma HeaderSkipped(header: string, rest: string)
    requires NoLineBreak(header)
    ensures Body(header + "\n" + rest) == SplitLines(rest)
  {
    var s := header + "\n" + rest;
    LineLengthOf(header, rest);
    PiecesOf(header, '\n', rest, []);
    assert s != [];
    assert SplitLines(s) == [s[..|header|]] + SplitLines(s[|header| + 1..]);
  }

  /** A row carrying a network serial. */
  predicate IsWifiRow(e: Entry) {
    e.wireless
  }

  /** Every row's tag is `_is_ip_serial` of its serial. */
  lemma {:induction false} RowsTagged(lines: seq<string>)
    ensures forall j :: 0 <= j < |Rows(lines)| ==> Rows(lines)[j].wireless == IsIpSerial(Rows(lines)[j].serial)
  {
    if lines != [] {
      RowsTagged(lines[1..]);
      var rs := Rows(lines);
      var k := |RowSeq(lines[0])|;
      forall j | 0 <= j < |rs| ensures rs[j].wireless == IsIpSerial(rs[j].serial) {
        if j >= k {
          assert rs[j] == Rows(lines[1..])[j - k];
        }
      }
    }
  }

  /** Index of the first row whose kind is `wifi` (network serial or not);
      `|rs|` when there is none. */
  function FirstKind(rs: seq<Entry>, wifi: bool): (k: nat)
    ensures k <= |rs|
  {
    if rs == [] then 0
    else if IsWifiRow(rs[0]) == wifi then 0
    else 1 + FirstKind(rs[1..], wifi)
  }

  /** `FirstKind` finds the leftmost row of the kind. */
  lemma {:induction false} FirstKindSpec(rs: seq<Entry>, wifi: bool)
    ensures var k := FirstKind(rs, wifi);
      (k < |rs| ==> IsWifiRow(rs[k]) == wifi) &&
      forall j :: 0 <= j < k ==> IsWifiRow(rs[j]) != wifi
  {
    if rs != [] && IsWifiRow(rs[0]) != wifi {
      FirstKindSpec(rs[1..], wifi);
      var k := FirstKind(rs, wifi);
      forall j | 0 <= j < k ensures IsWifiRow(rs[j]) != wifi {
        if j > 0 {
          assert rs[j] == rs[1..][j - 1];
        }
      }
      if k < |rs| {
        assert rs[k] == rs[1..][k - 1];
      }
    }
  }

  /** `wifi_row` or `usb_row` after the loop over `rs`. */
  function FirstOf(rs: seq<Entry>, wifi: bool): Option<Entry> {
    var k := FirstKind(rs, wifi);
    if k < |rs| then Some(rs[k]) else None
  }

  /** `wifi_row or usb_row or (None, "", None)`. */
  function PrimaryOf(rs: seq<Entry>): Primary {
    match FirstOf(rs, true)
    case Some(w) => Row(Wifi, w.state, w.serial)
    case None =>
      match FirstOf(rs, false)
      case Some(u) => Row(Usb, u.state, u.serial)
      case None => NoRow
  }

  lemma {:induction false} FirstKindAppend(a: seq<Entry>, b: seq<Entry>, wifi: bool)
    ensures FirstKind(a + b, wifi) == if FirstKind(a, wifi) < |a| then FirstKind(a, wifi) else |a| + FirstKind(b, wifi)
  {
    if a == [] {
      assert a + b == b;
    } else {
      assert (a + b)[0] == a[0] && (a + b)[1..] == a[1..] + b;
      FirstKindAppend(a[1..], b, wifi);
    }
  }

  /** A kind's first row, once found, stays; before that the appended rows decide. */
  lemma FirstOfAppend(a: seq<Entry>, b: seq<Entry>, wifi: bool)
    ensures FirstOf(a + b, wifi) == if FirstOf(a, wifi).Some? then FirstOf(a, wifi) else FirstOf(b, wifi)
  {
    FirstKindAppend(a, b, wifi);
    var k := FirstKind(a, wifi);
    if k < |a| {
      assert (a + b)[k] == a[k];
    } else {
      var m := FirstKind(b, wifi);
      if m < |b| {
        assert (a + b)[|a| + m] == b[m];
      }
    }
  }

  /** `quest_state`'s choice: the first network-serial row if there is one,
      else the first other row, else nothing; the row chosen is an actual row
      of the listing, and no earlier row is of its kind. */
  lemma PrimaryOfSpec(rs: seq<Entry>)
    ensures PrimaryOf(rs).NoRow? <==> rs == []
    ensures (PrimaryOf(rs).Row? && PrimaryOf(rs).transport == Wifi) <==>
            exists j :: 0 <= j < |rs| && IsWifiRow(rs[j])
    ensures PrimaryOf(rs).Row? ==>
            var p := PrimaryOf(rs);
            exists j :: 0 <= j < |rs| && rs[j].serial == p.serial && rs[j].state == p.state &&
              IsWifiRow(rs[j]) == (p.transport == Wifi) &&
              forall i :: 0 <= i < j ==> IsWifiRow(rs[i]) != (p.transport == Wifi)
  {
    FirstKindSpec(rs, true);
    FirstKindSpec(rs, false);
    var w := FirstKind(rs, true);
    var u := FirstKind(rs, false);
    if w == |rs| && rs != [] {
      assert u == 0;
    }
  }

  /** Later rows never replace an earlier pick: a wireless pick is final, and
      a wired pick can only give way to a wireless row that comes later. */
  lemma PrimaryStable(rs: seq<Entry>, more: seq<Entry>)
    ensures PrimaryOf(rs).Row? && PrimaryOf(rs).transport == Wifi ==> PrimaryOf(rs + more) == PrimaryOf(rs)
    ensures PrimaryOf(rs).Row? && PrimaryOf(rs).transport == Usb ==>
            PrimaryOf(rs + more) == PrimaryOf(rs) ||
            (PrimaryOf(rs + more) == PrimaryOf(more) && PrimaryOf(more).Row? && PrimaryOf(more).transport == Wifi)
  {
    FirstOfAppend(rs, more, true);
    FirstOfAppend(rs, more, false);
  }

  /** What `wifi_row` (`wifi`) or `usb_row` holds after one more line. */
  function Kept(row: Option<Entry>, line: string, wifi: bool): Option<Entry> {
    if row.Some? then row
    else
      var parts := Fields(line);
      if |parts| >= 2 && IsIpSerial(parts[0]) == wifi then Some(Entry(parts[0], parts[1], wifi)) else None
  }

  /** One more line, seen by `wifi_row` or `usb_row`. */
  lemma FirstOfStep(lines: seq<string>, i: nat, wifi: bool)
    requires i < |lines|
    ensures FirstOf(Rows(lines[..i + 1]), wifi) == Kept(FirstOf(Rows(lines[..i]), wifi), lines[i], wifi)
  {
    RowsSnoc(lines, i);
    FirstOfAppend(Rows(lines[..i]), RowSeq(lines[i]), wifi);
  }

  /** The body of `quest_state`'s loop: one line, split and classified. */
  method Visit(line: string, wifiRow: Option<Entry>, usbRow: Option<Entry>) returns (w: Option<Entry>, u: Option<Entry>)
    ensures w == Kept(wifiRow, line, true) && u == Kept(usbRow, line, false)
  {
    w, u := wifiRow, usbRow;
    var parts := Fields(line);
    if |parts| >= 2 {
      var serial, state := parts[0], parts[1];
      if IsIpSerial(serial) {
        if wifiRow == None {
          w := Some(Entry(serial, state, true));
        }
      } else {
        if usbRow == None {
          u := Some(Entry(serial, state, false));
        }
      }
    }
  }

  /** `quest_state`'s loop over the listing lines after the header: `wifi_row`
      and `usb_row` are each set once, by the first row of their kind. */
  method SelectPrimary(text: string) returns (p: Primary)
    ensures p == PrimaryOf(Listing(text))
  {
    var lines := Body(text);
    var wifiRow: Option<Entry> := None;
    var usbRow: Option<Entry> := None;
    var i := 0;
    while i < |lines|
      invariant 0 <= i <= |lines|
      invariant wifiRow == FirstOf(Rows(lines[..i]), true)
      invariant usbRow == FirstOf(Rows(lines[..i]), false)
    {
      FirstOfStep(lines, i, true);
      FirstOfStep(lines, i, false);
      wifiRow, usbRow := Visit(lines[i], wifiRow, usbRow);
      i := i + 1;
    }
    AllTaken(lines);
    if wifiRow.Some? {
      p := Row(Wifi, wifiRow.value.state, wifiRow.value.serial);
    } else if usbRow.Some? {
      p := Row(Usb, usbRow.value.state, usbRow.value.serial);
    } else {
      p := NoRow;
    }
  }

  // ----- adb_devices -----

  /** The serials of the rows in state "device", in listing order. */
  function ReadyOf(rs: seq<Entry>): seq<string> {
    if rs == [] then []
    else (if rs[0].state == "device" then [rs[0].serial] else []) + ReadyOf(rs[1..])
  }

  /** The first fields of all rows. */
  function Serials(rs: seq<Entry>): (ss: seq<string>)
    ensures |ss| == |rs| && forall j :: 0 <= j < |rs| ==> ss[j] == rs[j].serial
  {
    if rs == [] then [] else [rs[0].serial] + Serials(rs[1..])
  }

  /** `a` is `b` with some elements left out. */
  predicate IsSubsequence(a: seq<string>, b: seq<string>)
    decreases |b|
  {
    a == [] || (b != [] && ((a[0] == b[0] && IsSubsequence(a[1..], b[1..])) || IsSubsequence(a, b[1..])))
  }

  lemma {:induction false} ReadyOfAppend(a: seq<Entry>, b: seq<Entry>)
    ensures ReadyOf(a + b) == ReadyOf(a) + ReadyOf(b)
  {
    if a == [] {
      assert a + b == b;
    } else {
      assert (a + b)[0] == a[0] && (a + b)[1..] == a[1..] + b;
      ReadyOfAppend(a[1..], b);
    }
  }

  /** A serial is reported exactly when some row carries it in state "device". */
  lemma {:induction false} ReadyMembership(rs: seq<Entry>, s: string)
    ensures s in ReadyOf(rs) <==> exists j :: 0 <= j < |rs| && rs[j].serial == s && rs[j].state == "device"
  {
    if rs != [] {
      ReadyMembership(rs[1..], s);
      if exists j :: 0 <= j < |rs| && rs[j].serial == s && rs[j].state == "device" {
        var j :| 0 <= j < |rs| && rs[j].serial == s && rs[j].state == "device";
        if j > 0 {
          assert rs[1..][j - 1] == rs[j];
        }
      }
      if exists j :: 0 <= j < |rs[1..]| && rs[1..][j].serial == s && rs[1..][j].state == "device" {
        var j :| 0 <= j < |rs[1..]| && rs[1..][j].serial == s && rs[1..][j].state == "device";
        assert rs[j + 1] == rs[1..][j];
      }
    }
  }

  /** `idx` gives, for each serial of `r`, the row of `rs` that `keep` holds
      of and that it comes from: one entry per such row, in listing order. */
  ghost predicate Indexes(rs: seq<Entry>, keep: Entry -> bool, r: seq<string>, idx: seq<nat>) {
    |idx| == |r| &&
    (forall k :: 0 <= k < |idx| ==> idx[k] < |rs| && keep(rs[idx[k]]) && r[k] == rs[idx[k]].serial) &&
    (forall k, l :: 0 <= k < l < |idx| ==> idx[k] < idx[l]) &&
    (forall j :: 0 <= j < |rs| && keep(rs[j]) ==> j in idx)
  }

  /** The indexes for a row in front of the listing: the tail's, one further
      on, after index 0 when the row is kept. */
  function ConsIdx(rs: seq<Entry>, keep: Entry -> bool, rest: seq<nat>): seq<nat>
    requires rs != []
  {
    (if keep(rs[0]) then [0] else []) + Shift(rest)
  }

  function ConsSerials(rs: seq<Entry>, keep: Entry -> bool, rt: seq<string>): seq<string>
    requires rs != []
  {
    (if keep(rs[0]) then [rs[0].serial] else []) + rt
  }

  lemma ConsIdxRows(rs: seq<Entry>, keep: Entry -> bool, rt: seq<string>, rest: seq<nat>)
    requires rs != [] && Indexes(rs[1..], keep, rt, rest)
    ensures var idx, r := ConsIdx(rs, keep, rest), ConsSerials(rs, keep, rt);
      |idx| == |r| &&
      forall k :: 0 <= k < |idx| ==> idx[k] < |rs| && keep(rs[idx[k]]) && r[k] == rs[idx[k]].serial
  {
    var idx, r := ConsIdx(rs, keep, rest), ConsSerials(rs, keep, rt);
    var h := if keep(rs[0]) then 1 else 0;
    forall k | 0 <= k < |idx|
      ensures idx[k] < |rs| && keep(rs[idx[k]]) && r[k] == rs[idx[k]].serial
    {
      if k >= h {
        var m := k - h;
        assert idx[k] == rest[m] + 1 && rs[rest[m] + 1] == rs[1..][rest[m]] && r[k] == rt[m];
      }
    }
  }

  lemma ConsIdxOrdered(rs: seq<Entry>, keep: Entry -> bool, rt: seq<string>, rest: seq<nat>)
    requires rs != [] && Indexes(rs[1..], keep, rt, rest)
    ensures var idx := ConsIdx(rs, keep, rest);
      forall k, l :: 0 <= k < l < |idx| ==> idx[k] < idx[l]
  {
    var idx := ConsIdx(rs, keep, rest);
    var h := if keep(rs[0]) then 1 else 0;
    forall k, l | 0 <= k < l < |idx| ensures idx[k] < idx[l] {
      assert idx[l] == rest[l - h] + 1;
      if k >= h {
        assert idx[k] == rest[k - h] + 1;
      }
    }
  }

  lemma ConsIdxCovers(rs: seq<Entry>, keep: Entry -> bool, rt: seq<string>, rest: seq<nat>)
    requires rs != [] && Indexes(rs[1..], keep, rt, rest)
    ensures var idx := ConsIdx(rs, keep, rest);
      forall j :: 0 <= j < |rs| && keep(rs[j]) ==> j in idx
  {
    var idx := ConsIdx(rs, keep, rest);
    var h := if keep(rs[0]) then 1 else 0;
    forall j | 0 <= j < |rs| && keep(rs[j]) ensures j in idx {
      if j > 0 {
        assert rs[1..][j - 1] == rs[j];
        var m :| 0 <= m < |rest| && rest[m] == j - 1;
        assert idx[h + m] == j;
      } else {
        assert idx[0] == 0;
      }
    }
  }

  /** Every index one further on. */
  function Shift(ns: seq<nat>): (r: seq<nat>)
    ensures |r| == |ns| && forall k :: 0 <= k < |ns| ==> r[k] == ns[k] + 1
  {
    seq(|ns|, k requires 0 <= k < |ns| => ns[k] + 1)
  }

  /** The reported serials are those of the rows in state "device", one
      entry per such row and in listing order. */
  lemma {:induction false} ReadyIndices(rs: seq<Entry>) returns (idx: seq<nat>)
    ensures Indexes(rs, (e: Entry) => e.state == "device", ReadyOf(rs), idx)
  {
    if rs == [] {
      idx := [];
    } else {
      var keep := (e: Entry) => e.state == "device";
      var rest := ReadyIndices(rs[1..]);
      ConsIdxRows(rs, keep, ReadyOf(rs[1..]), rest);
      ConsIdxOrdered(rs, keep, ReadyOf(rs[1..]), rest);
      ConsIdxCovers(rs, keep, ReadyOf(rs[1..]), rest);
      assert ReadyOf(rs) == ConsSerials(rs, keep, ReadyOf(rs[1..]));
      idx := ConsIdx(rs, keep, rest);
    }
  }

  /** The reported serials keep the listing order: they are a subsequence of the first fields. */
  lemma {:induction false} ReadyIsSubsequence(rs: seq<Entry>)
    ensures IsSubsequence(ReadyOf(rs), Serials(rs))
  {
    if rs != [] {
      ReadyIsSubsequence(rs[1..]);
      var a, b := ReadyOf(rs), Serials(rs);
      assert b != [] && b[1..] == Serials(rs[1..]);
      if rs[0].state == "device" {
        assert a == [rs[0].serial] + ReadyOf(rs[1..]);
        assert a[0] == b[0] && a[1..] == ReadyOf(rs[1..]);
      } else {
        assert a == ReadyOf(rs[1..]);
      }
    }
  }

  /** `adb_devices`'s loop: the serial of every row whose state is "device", in order. */
  method ReadySerials(text: string) returns (res: seq<string>)
    ensures res == ReadyOf(Listing(text))
  {
    var lines := Body(text);
    res := [];
    var i := 0;
    while i < |lines|
      invariant 0 <= i <= |lines|
      invariant res == ReadyOf(Rows(lines[..i]))
    {
      ReadyStep(lines, i);
      var parts := Fields(lines[i]);
      if |parts| >= 2 && parts[1] == "device" {
        res := res + [parts[0]];
      }
      i := i + 1;
    }
    AllTaken(lines);
  }

  /** One more line, seen by `adb_devices`. */
  lemma ReadyStep(lines: seq<string>, i: nat)
    requires i < |lines|
    ensures var parts := Fields(lines[i]);
      ReadyOf(Rows(lines[..i + 1])) ==
        ReadyOf(Rows(lines[..i])) + if |parts| >= 2 && parts[1] == "device" then [parts[0]] else []
  {
    RowsSnoc(lines, i);
    ReadyOfAppend(Rows(lines[..i]), RowSeq(lines[i]));
    if RowOf(lines[i]).Some? {
      var e := RowOf(lines[i]).value;
      assert [e][1..] == [];
    }
  }

  // ----- first_usb_device_or_none -----

  /** The states `first_usb_device_or_none` accepts. */
  predicate WiredCandidate(e: Entry) {
    e.state in ["device", "unauthorized", "offline"] && !e.wireless
  }

  /** The serial of the first row in state device, unauthorized or offline whose
      serial is not a network serial. */
  function FirstWiredOf(rs: seq<Entry>): (r: Option<string>)
    ensures r.Some? ==> exists j :: 0 <= j < |rs| && rs[j].serial == r.value && !rs[j].wireless
  {
    if rs == [] then None
    else if WiredCandidate(rs[0]) then Some(rs[0].serial)
    else FirstWiredOf(rs[1..])
  }

  /** It finds a row exactly when one qualifies, and then the first one. */
  lemma {:induction false} FirstWiredSpec(rs: seq<Entry>)
    ensures FirstWiredOf(rs).None? <==> forall j :: 0 <= j < |rs| ==> !WiredCandidate(rs[j])
    ensures FirstWiredOf(rs).Some? ==>
            exists j :: 0 <= j < |rs| && rs[j].serial == FirstWiredOf(rs).value && WiredCandidate(rs[j]) &&
              forall i :: 0 <= i < j ==> !WiredCandidate(rs[i])
  {
    if rs != [] && !WiredCandidate(rs[0]) {
      FirstWiredSpec(rs[1..]);
      assert forall j :: 1 <= j < |rs| ==> rs[j] == rs[1..][j - 1];
      if FirstWiredOf(rs).Some? {
        var j :| 0 <= j < |rs[1..]| && rs[1..][j].serial == FirstWiredOf(rs).value && WiredCandidate(rs[1..][j]) &&
              forall i :: 0 <= i < j ==> !WiredCandidate(rs[1..][i]);
        assert rs[j + 1] == rs[1..][j];
      }
    }
  }

  /** The serial found is never a network serial, by `_is_ip_serial` or by
      the reference shape. */
  lemma FirstWiredNotNetwork(text: string)
    ensures var r := FirstWiredOf(Listing(text));
      r.Some? ==> !IsIpSerial(r.value) && !IsIpSerialForm(r.value)
  {
    var rs := Listing(text);
    RowsTagged(Body(text));
    if FirstWiredOf(rs).Some? {
      var j :| 0 <= j < |rs| && rs[j].serial == FirstWiredOf(rs).value && !rs[j].wireless;
      IsIpSerialOfField(rs[j].serial);
    }
  }

  /** `first_usb_device_or_none`'s loop, with its early return. */
  method FirstWired(text: string) returns (r: Option<string>)
    ensures r == FirstWiredOf(Listing(text))
  {
    var lines := Body(text);
    var i := 0;
    assert lines[i..] == lines;
    while i < |lines|
      invariant 0 <= i <= |lines|
      invariant FirstWiredOf(Listing(text)) == FirstWiredOf(Rows(lines[i..]))
    {
      RestOfRows(lines, i);
      FirstWiredAppend(RowSeq(lines[i]), Rows(lines[i + 1..]));
      var parts := Fields(lines[i]);
      if |parts| >= 2 && parts[1] in ["device", "unauthorized", "offline"] {
        var serial := parts[0];
        if !IsIpSerial(serial) {
          return Some(serial);
        }
      }
      i := i + 1;
    }
    return None;
  }

  lemma {:induction false} FirstWiredAppend(a: seq<Entry>, b: seq<Entry>)
    ensures FirstWiredOf(a + b) == if FirstWiredOf(a).Some? then FirstWiredOf(a) else FirstWiredOf(b)
  {
    if a == [] {
      assert a + b == b;
    } else {
      assert (a + b)[0] == a[0] && (a + b)[1..] == a[1..] + b;
      FirstWiredAppend(a[1..], b);
    }
  }

  /** The rows from line `i` on: that line's row, then the rest. */
  lemma RestOfRows(lines: seq<string>, i: nat)
    requires i < |lines|
    ensures Rows(lines[i..]) == RowSeq(lines[i]) + Rows(lines[i + 1..])
  {
    assert lines[i..][0] == lines[i] && lines[i..][1..] == lines[i + 1..];
  }

  // ----- first_device_or_none -----

  /** `first_device_or_none` given the result of `quest_state`: the serial,
      unless it is absent or empty. */
  function FirstDeviceOf(p: Primary): (r: Option<string>)
    ensures r.Some? <==> p.Row? && p.serial != []
    ensures r.Some? ==> r.value == p.serial
  {
    if p.Row? && p.serial != [] then Some(p.serial) else None
  }

  /** Over a listing: a device exactly when there is a row, and then the
      serial of the first wireless row if there is one, else of the first row. */
  lemma FirstDeviceOfRows(rs: seq<Entry>)
    requires forall j :: 0 <= j < |rs| ==> rs[j].serial != []
    ensures FirstDeviceOf(PrimaryOf(rs)).None? <==> rs == []
    ensures forall j :: 0 <= j < |rs| && IsWifiRow(rs[j]) && (forall i :: 0 <= i < j ==> !IsWifiRow(rs[i])) ==>
      FirstDeviceOf(PrimaryOf(rs)) == Some(rs[j].serial)
    ensures rs != [] && (forall j :: 0 <= j < |rs| ==> !IsWifiRow(rs[j])) ==>
      FirstDeviceOf(PrimaryOf(rs)) == Some(rs[0].serial)
  {
    PrimaryOfSpec(rs);
    var p := PrimaryOf(rs);
    if p.Row? {
      var k :| 0 <= k < |rs| && rs[k].serial == p.serial && rs[k].state == p.state &&
        IsWifiRow(rs[k]) == (p.transport == Wifi) &&
        forall i :: 0 <= i < k ==> IsWifiRow(rs[i]) != (p.transport == Wifi);
      forall j | 0 <= j < |rs| && IsWifiRow(rs[j]) && (forall i :: 0 <= i < j ==> !IsWifiRow(rs[i]))
        ensures FirstDeviceOf(p) == Some(rs[j].serial)
      {
        assert p.transport == Wifi;
        assert !(j < k) && !(k < j);
      }
    }
  }

  // ----- the same, reading the listing through adb -----

  /** `quest_state()` after the history `past`: the row it picks and the
      events of reading the listing. */
  function QuestStateF(h: Host, past: seq<Event>): (o: Out<Primary>)
    ensures o.events == DevicesOutputF(h, past).events
    ensures !h.adbPresent ==> o.value == NoRow
  {
    var d := DevicesOutputF(h, past);
    assert !h.adbPresent ==> Body(d.value) == [];
    Out(PrimaryOf(Listing(d.value)), d.events)
  }

  /** The tag of the row `quest_state` picks agrees with `_is_ip_serial` of
      its serial, which is never empty; and a listing with a network-serial
      row anywhere yields a "wifi" pick. */
  lemma QuestStateTagged(h: Host, past: seq<Event>)
    ensures var p := QuestStateF(h, past).value;
      p.Row? ==> p.serial != [] && (p.transport == Wifi <==> IsIpSerial(p.serial))
    ensures var rs := Listing(DevicesOutputF(h, past).value);
      (exists j :: 0 <= j < |rs| && IsIpSerial(rs[j].serial)) <==>
        QuestStateF(h, past).value.Row? && QuestStateF(h, past).value.transport == Wifi
  {
    var text := DevicesOutputF(h, past).value;
    RowsTagged(Body(text));
    PrimaryOfSpec(Listing(text));
    var rs := Listing(text);
    assert forall j :: 0 <= j < |rs| ==> (IsWifiRow(rs[j]) <==> IsIpSerial(rs[j].serial));
  }

  /** `quest_state()`. */
  method QuestState(adb: Adb) returns (p: Primary)
    modifies adb
    ensures p == QuestStateF(adb.host, old(adb.trace)).value
    ensures adb.trace == old(adb.trace) + QuestStateF(adb.host, old(adb.trace)).events
  {
    var text := adb.DevicesOutput();
    p := SelectPrimary(text);
  }

  /** `adb_devices()`. */
  method AdbDevices(adb: Adb) returns (res: seq<string>)
    modifies adb
    ensures res == ReadyOf(Listing(DevicesOutputF(adb.host, old(adb.trace)).value))
    ensures adb.trace == old(adb.trace) + DevicesOutputF(adb.host, old(adb.trace)).events
  {
    var text := adb.DevicesOutput();
    res := ReadySerials(text);
  }

  /** `first_device_or_none()`. */
  method FirstDevice(adb: Adb) returns (r: Option<string>)
    modifies adb
    ensures r == FirstDeviceOf(QuestStateF(adb.host, old(adb.trace)).value)
    ensures adb.trace == old(adb.trace) + QuestStateF(adb.host, old(adb.trace)).events
  {
    var p := QuestState(adb);
    if p.Row? && p.serial != [] {
      r := Some(p.serial);
    } else {
      r := None;
    }
  }

  /** `first_usb_device_or_none()`. */
  method FirstUsb(adb: Adb) returns (r: Option<string>)
    modifies adb
    ensures r == FirstWiredOf(Listing(DevicesOutputF(adb.host, old(adb.trace)).value))
    ensures adb.trace == old(adb.trace) + DevicesOutputF(adb.host, old(adb.trace)).events
  {
    var text := adb.DevicesOutput();
    r := FirstWired(text);
  }
}
