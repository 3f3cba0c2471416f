/** The regular expressions of app/scrcpy_runner.py, coded by hand, each beside a
    reference definition of the shape it recognises.

    Python's engine tries the pattern at every start position in turn
    (`re.search`) and, at one position, backtracks through the greedy and lazy
    quantifiers. In these patterns every quantified class is followed by a
    character outside that class, so at a given position the match is unique:
    the `\s+` and `\d{1,3}` runs take all they can, except a final `\d{1,3}`
    with nothing after it, which takes at most three digits. That is what the
    functions below compute. */
module Patterns {
  import opened Wrappers
  import opened Text

  /** `\d`, on ASCII digits. */
  predicate IsDigit(c: char) {
    '0' <= c <= '9'
  }

  /** A word character for `\b`: an ASCII letter, a digit or `_`. */
  predicate IsWordChar(c: char) {
    ('a' <= c <= 'z') || ('A' <= c <= 'Z') || IsDigit(c) || c == '_'
  }

  predicate AllDigits(s: string) {
    forall k :: 0 <= k < |s| ==> IsDigit(s[k])
  }

  /** A run of `lo` to `hi` digits. */
  predicate IsDecimal(g: string, lo: nat, hi: nat) {
    lo <= |g| <= hi && AllDigits(g)
  }

  /** `q` is `n` groups of one to three digits separated by '.': the text up to
      the first '.' is a group and the text after it holds the other `n - 1`. */
  predicate DotGroups(q: string, n: nat)
    decreases n
  {
    if n <= 1 then n == 1 && IsDecimal(q, 1, 3)
    else '.' in q && IsDecimal(q[..IndexOf(q, '.')], 1, 3) && DotGroups(q[IndexOf(q, '.') + 1..], n - 1)
  }

  /** The reference shape of an IPv4 literal: four dot-separated groups of 1-3 digits. */
  predicate IsDottedQuad(q: string) {
    DotGroups(q, 4)
  }

  /** The reference shape of a network serial: a dotted quad, one ':', then 2-5 digits. */
  predicate IsIpSerialForm(s: string) {
    var p := SplitOn(s, ':');
    |p| == 2 && IsDottedQuad(p[0]) && IsDecimal(p[1], 2, 5)
  }

  // ----- the matcher -----

  /** Number of leading digits of `x`. */
  function LeadingDigits(x: string): (n: nat)
    ensures n <= |x| && AllDigits(x[..n])
    ensures n < |x| ==> !IsDigit(x[n])
  {
    if x != [] && IsDigit(x[0]) then
      var n := 1 + LeadingDigits(x[1..]);
      assert x[..n] == [x[0]] + x[1..][..n - 1];
      n
    else 0
  }

  /** Number of whitespace characters starting at position `i`. */
  function SpaceRun(s: string, i: nat): (n: nat)
    requires i <= |s|
    ensures i + n <= |s|
    ensures forall k :: i <= k < i + n ==> IsSpace(s[k])
    ensures i + n < |s| ==> !IsSpace(s[i + n])
    decreases |s| - i
  {
    if i < |s| && IsSpace(s[i]) then 1 + SpaceRun(s, i + 1) else 0
  }

  /** `\d{1,3}` followed by `n - 1` times `\.\d{1,3}`, at the start of `x`; the
      length of the match. With `exact` the pattern is followed by a non-digit
      (':', '/', ']' or the end of the text), so its last group must be the whole
      digit run; otherwise the last `\d{1,3}` takes at most three digits of the run. */
  function Dotted(x: string, n: nat, exact: bool): (m: Option<nat>)
    ensures m.Some? ==> 0 < m.value <= |x|
    ensures m.Some? && exact ==> m.value == |x| || !IsDigit(x[m.value])
    decreases n
  {
    var r := LeadingDigits(x);
    if n <= 1 then
      if n == 0 || r == 0 || (exact && r > 3) then None
      else Some(if r > 3 then 3 else r)
    else if 1 <= r <= 3 && r < |x| && x[r] == '.' then
      match Dotted(x[r + 1..], n - 1, exact)
      case None => None
      case Some(m) =>
        assert x[r + 1..][m..] == x[r + 1 + m..];
        Some(r + 1 + m)
    else None
  }

  lemma DigitsHaveNoSep(g: string, sep: char)
    requires AllDigits(g) && !IsDigit(sep)
    ensures sep !in g
  {
  }

  /** The digit run at the start of `g + t` is `g` when `t` starts with a non-digit. */
  lemma {:induction false} LeadingDigitsOf(g: string, t: string)
    requires AllDigits(g) && (t == [] || !IsDigit(t[0]))
    ensures LeadingDigits(g + t) == |g|
  {
    if g != [] {
      TailOfConcat(g, t);
      assert (g + t)[0] == g[0];
      LeadingDigitsOf(g[1..], t);
    }
  }

  /** Prefixing a group and a '.' adds one group. */
  lemma DotGroupsCons(head: string, rest: string, n: nat, q: string)
    requires n >= 2 && IsDecimal(head, 1, 3) && DotGroups(rest, n - 1)
    requires q == head + ['.'] + rest
    ensures DotGroups(q, n)
  {
    DigitsHaveNoSep(head, '.');
    PiecesOf(head, '.', rest, []);
    IndexOfAt(q, '.', |head|);
  }

  /** The first `c` of `s` is at `k` when `s[k]` is `c` and none comes before. */
  lemma IndexOfAt(s: string, c: char, k: nat)
    requires k < |s| && s[k] == c && c !in s[..k]
    ensures IndexOf(s, c) == k
  {
    var j := IndexOf(s, c);
    if j < k {
      assert false;
    }
  }

  /** The first group of a string of `n` groups, and the groups after it. */
  lemma GroupsSplit(q: string, n: nat) returns (head: string, rest: string)
    requires n >= 2 && DotGroups(q, n)
    ensures q == head + ['.'] + rest
    ensures IsDecimal(head, 1, 3) && DotGroups(rest, n - 1)
  {
    var k := IndexOf(q, '.');
    head, rest := q[..k], q[k + 1..];
    CutAt(q, k);
  }

  /** One group and its '.' in front of a match of `n - 1` groups. */
  lemma DottedStep(x: string, n: nat, exact: bool, r: nat, m: nat, e: nat)
    requires n >= 2 && r == LeadingDigits(x) && 1 <= r <= 3 && r < |x| && x[r] == '.'
    requires Dotted(x[r + 1..], n - 1, exact) == Some(m) && e == r + 1 + m
    ensures Dotted(x, n, exact) == Some(e)
  {
  }

  /** A match of `n >= 2` groups is a group, a '.' and a match of `n - 1` groups. */
  lemma DottedUnstep(x: string, n: nat, exact: bool, m: nat) returns (r: nat, m': nat)
    requires n >= 2 && Dotted(x, n, exact) == Some(m)
    ensures r == LeadingDigits(x) && 1 <= r <= 3 && r < |x| && x[r] == '.'
    ensures Dotted(x[r + 1..], n - 1, exact) == Some(m') && m == r + 1 + m'
  {
    r := LeadingDigits(x);
    m' := Dotted(x[r + 1..], n - 1, exact).value;
  }

  /** What `Dotted` matched has the reference shape. */
  lemma {:induction false} DottedSound(x: string, n: nat, exact: bool, m: nat)
    requires Dotted(x, n, exact) == Some(m)
    ensures DotGroups(x[..m], n)
    decreases n, 1
  {
    if n <= 1 {
      DottedSoundOne(x, n, exact, m);
    } else {
      var r, m' := DottedUnstep(x, n, exact, m);
      DottedSoundCons(x, n, exact, m, r, m');
    }
  }

  lemma {:induction false} DottedSoundCons(x: string, n: nat, exact: bool, m: nat, r: nat, m': nat)
    requires n >= 2 && r == LeadingDigits(x) && 1 <= r <= 3 && r < |x| && x[r] == '.'
    requires Dotted(x[r + 1..], n - 1, exact) == Some(m') && m == r + 1 + m'
    ensures DotGroups(x[..m], n)
    decreases n, 0
  {
    DottedSound(x[r + 1..], n - 1, exact, m');
    SoundCons(x, n, r, m', m);
  }

  lemma DottedSoundOne(x: string, n: nat, exact: bool, m: nat)
    requires n <= 1 && Dotted(x, n, exact) == Some(m)
    ensures DotGroups(x[..m], n)
  {
    var r := LeadingDigits(x);
    PrefixOfPrefix(x, r, m);
    assert AllDigits(x[..m]) by {
      forall k | 0 <= k < m ensures IsDigit(x[..m][k]) {
        assert x[..m][k] == x[..r][k];
      }
    }
  }

  lemma SoundCons(x: string, n: nat, r: nat, k: nat, m: nat)
    requires n >= 2 && r == LeadingDigits(x) && 1 <= r <= 3 && r < |x| && x[r] == '.'
    requires k <= |x| - r - 1 && DotGroups(x[r + 1..][..k], n - 1) && m == r + 1 + k
    ensures DotGroups(x[..m], n)
  {
    PrefixThrough(x, r, '.', k, m);
    DotGroupsCons(x[..r], x[r + 1..][..k], n, x[..m]);
  }

  /** A reference-shaped `q` followed by a non-digit is matched by `Dotted` in full. */
  lemma {:induction false} DottedComplete(q: string, t: string, n: nat)
    requires DotGroups(q, n) && (t == [] || !IsDigit(t[0]))
    ensures Dotted(q + t, n, true) == Some(|q|)
    decreases n, 1
  {
    if n <= 1 {
      LeadingDigitsOf(q, t);
    } else {
      var head, rest := GroupsSplit(q, n);
      DottedCompleteCons(q, t, n, head, rest);
    }
  }

  lemma {:induction false} DottedCompleteCons(q: string, t: string, n: nat, head: string, rest: string)
    requires n >= 2 && q == head + ['.'] + rest
    requires IsDecimal(head, 1, 3) && DotGroups(rest, n - 1) && (t == [] || !IsDigit(t[0]))
    ensures Dotted(q + t, n, true) == Some(|q|)
    decreases n, 0
  {
    DottedComplete(rest, t, n - 1);
    CompleteCons(q, t, n, head, rest);
  }

  lemma CompleteCons(q: string, t: string, n: nat, head: string, rest: string)
    requires n >= 2 && q == head + ['.'] + rest && IsDecimal(head, 1, 3)
    requires Dotted(rest + t, n - 1, true) == Some(|rest|)
    ensures Dotted(q + t, n, true) == Some(|q|)
  {
    PiecesOf(head, '.', rest, t);
    LeadingDigitsOf(head, ['.'] + rest + t);
    DottedStep(q + t, n, true, |head|, |rest|, |q|);
  }

  /** `DottedComplete` for a prefix `x[..k]` of reference shape. */
  lemma DottedCompleteAt(x: string, k: nat, n: nat)
    requires k <= |x| && DotGroups(x[..k], n) && (k == |x| || !IsDigit(x[k]))
    ensures Dotted(x, n, true) == Some(k)
  {
    SplitAt(x, k);
    DottedComplete(x[..k], x[k..], n);
  }

  /** A string of dot-separated digit groups holds no ':'. */
  lemma {:induction false} DigitsSplit(q: string, n: nat)
    requires DotGroups(q, n)
    ensures ':' !in q
    decreases n, 1
  {
    if n <= 1 {
      DigitsHaveNoSep(q, ':');
    } else {
      var head, rest := GroupsSplit(q, n);
      DigitsSplitCons(q, n, head, rest);
    }
  }

  lemma {:induction false} DigitsSplitCons(q: string, n: nat, head: string, rest: string)
    requires n >= 2 && q == head + ['.'] + rest
    requires IsDecimal(head, 1, 3) && DotGroups(rest, n - 1)
    ensures ':' !in q
    decreases n, 0
  {
    DigitsHaveNoSep(head, ':');
    DigitsSplit(rest, n - 1);
  }

  /** `^\d{1,3}(?:\.\d{1,3}){3}:\d{2,5}` matched against the whole of `x`. */
  predicate SerialShape(x: string) {
    match Dotted(x, 4, true)
    case None => false
    case Some(a) =>
      a < |x| && x[a] == ':' &&
      var r := LeadingDigits(x[a + 1..]);
      2 <= r <= 5 && a + 1 + r == |x|
  }

  /** `_is_ip_serial`: `":" in serial` and
      `re.match(r"^\d{1,3}(?:\.\d{1,3}){3}:\d{2,5}$", serial)`.
      Python's `$` matches at the end or just before a final "\n". */
  predicate IsIpSerial(s: string) {
    ':' in s && (SerialShape(s) || (s != [] && s[|s| - 1] == '\n' && SerialShape(s[..|s| - 1])))
  }

  /** Cutting the reference shape of a serial at its ':'. */
  lemma IpSerialFormOf(ip: string, port: string)
    requires IsDottedQuad(ip) && IsDecimal(port, 2, 5)
    ensures IsIpSerialForm(ip + [':'] + port)
  {
    DigitsSplit(ip, 4);
    DigitsHaveNoSep(port, ':');
    SplitOnCons(ip, ':', port);
    SplitOnSingle(port, ':');
  }

  /** Whatever the matcher accepts has the reference shape of a serial. */
  lemma SerialShapeSound(x: string)
    requires SerialShape(x)
    ensures IsIpSerialForm(x)
  {
    var a := Dotted(x, 4, true).value;
    DottedSound(x, 4, true, a);
    var port := x[a + 1..];
    Whole(port);
    CutAt(x, a);
    IpSerialFormOf(x[..a], port);
  }

  /** Every string of the reference shape of a serial is accepted by the matcher. */
  lemma SerialShapeComplete(x: string)
    requires IsIpSerialForm(x)
    ensures SerialShape(x)
  {
    var k := SplitOnTwo(x, ':');
    var port := x[k + 1..];
    DottedCompleteAt(x, k, 4);
    Whole(port);
    LeadingDigitsOf(port, []);
    SerialShapeAt(x, k);
  }

  lemma SerialShapeAt(x: string, a: nat)
    requires Dotted(x, 4, true) == Some(a) && a < |x| && x[a] == ':'
    requires 2 <= |x| - a - 1 <= 5 && LeadingDigits(x[a + 1..]) == |x| - a - 1
    ensures SerialShape(x)
  {
  }

  /** The matcher and the reference shape agree on network serials. */
  lemma SerialShapeIff(x: string)
    ensures SerialShape(x) <==> IsIpSerialForm(x)
  {
    if SerialShape(x) {
      SerialShapeSound(x);
    }
    if IsIpSerialForm(x) {
      SerialShapeComplete(x);
    }
  }

  /** `_is_ip_serial` against the reference shape: it holds exactly of the
      network-serial shape, optionally followed by one "\n". */
  lemma IsIpSerialIff(s: string)
    ensures IsIpSerial(s) <==>
      IsIpSerialForm(s) || (s != [] && s[|s| - 1] == '\n' && IsIpSerialForm(s[..|s| - 1]))
  {
    SerialShapeIff(s);
    if s != [] {
      SerialShapeIff(s[..|s| - 1]);
      if IsIpSerialForm(s[..|s| - 1]) {
        SplitOnSingle(s[..|s| - 1], ':');
        var k := IndexOf(s[..|s| - 1], ':');
        assert s[k] == ':';
      }
    }
    SplitOnSingle(s, ':');
  }

  /** On text without a newline, such as a whitespace-split field, `_is_ip_serial`
      is exactly the reference shape. */
  lemma IsIpSerialOfField(s: string)
    requires NoSpace(s)
    ensures IsIpSerial(s) <==> IsIpSerialForm(s)
  {
    IsIpSerialIff(s);
    if s != [] {
      assert !IsSpace(s[|s| - 1]);
    }
  }

  /** `ip + ":" + port` is a network serial whenever `ip` is a dotted quad and
      `port` has 2-5 digits. */
  lemma QuadWithPortIsIpSerial(ip: string, port: string)
    requires IsDottedQuad(ip) && IsDecimal(port, 2, 5)
    ensures IsIpSerial(ip + ":" + port)
  {
    IpSerialFormOf(ip, port);
    IsIpSerialIff(ip + ":" + port);
  }

  // ----- the searched patterns -----

  predicate LiteralAt(s: string, i: nat, lit: string) {
    i + |lit| <= |s| && s[i..i + |lit|] == lit
  }

  /** `\bkw\s+` at position `i`; the position after the whitespace. */
  function AfterKeyword(s: string, i: nat, kw: string): (j: Option<nat>)
    requires i <= |s|
    ensures j.Some? ==> i + |kw| < j.value <= |s| && KeywordAt(s, i, kw, j.value)
  {
    if (i == 0 || !IsWordChar(s[i - 1])) && LiteralAt(s, i, kw) then
      var w := SpaceRun(s, i + |kw|);
      if w >= 1 then Some(i + |kw| + w) else None
    else None
  }

  /** `(\d{1,3}(?:\.\d{1,3}){3})` with nothing after it, at position `j`. */
  function QuadFree(s: string, j: nat): (m: Option<string>)
    requires j <= |s|
    ensures m.Some? ==> IsDottedQuad(m.value) && TextAt(s, j, m.value)
  {
    match Dotted(s[j..], 4, false)
    case None => None
    case Some(e) =>
      DottedSound(s[j..], 4, false, e);
      TextAtSlice(s, j, e);
      Some(s[j..][..e])
  }

  /** `(\d{1,3}(?:\.\d{1,3}){3})` followed by the character `c`, at position `j`. */
  function QuadThen(s: string, j: nat, c: char): (m: Option<string>)
    requires j <= |s|
    ensures m.Some? ==> IsDottedQuad(m.value) && TextAt(s, j, m.value) && j + |m.value| < |s| && s[j + |m.value|] == c
  {
    match Dotted(s[j..], 4, true)
    case None => None
    case Some(e) =>
      if j + e < |s| && s[j + e] == c then
        DottedSound(s[j..], 4, true, e);
        TextAtSlice(s, j, e);
        Some(s[j..][..e])
      else None
  }

  lemma TextAtSlice(s: string, j: nat, e: nat)
    requires j + e <= |s|
    ensures TextAt(s, j, s[j..][..e]) && |s[j..][..e]| == e
  {
    assert s[j..][..e] == s[j..j + e];
  }

  /** The patterns searched in command output. */
  datatype Pattern =
    | RouteSrc      // \bsrc\s+(\d{1,3}(?:\.\d{1,3}){3})                 (ip route get)
    | AddrInet      // \binet\s+(\d{1,3}(?:\.\d{1,3}){3})/               (ip -o -4 addr show)
    | IfconfigInet  // \binet(?:\s+addr:|\s+)(\d{1,3}(?:\.\d{1,3}){3})   (ifconfig)
    | DhcpLease     // dhcp\.(wlan\d*).*?ipaddress\]\s*:\s*\[(\d{1,3}(?:\.\d{1,3}){3})\]

  /** `ipaddress\]\s*:\s*\[(...)\]` at position `j`. */
  function LeaseTail(s: string, j: nat): (m: Option<string>)
    requires j <= |s|
    ensures m.Some? ==> IsDottedQuad(m.value) && LeaseTailAt(s, j, m.value)
  {
    if !LiteralAt(s, j, "ipaddress]") then None else Bracketed(s, j + 10)
  }

  /** `\s*:\s*\[(\d{1,3}(?:\.\d{1,3}){3})\]` at position `j`. */
  function Bracketed(s: string, j: nat): (m: Option<string>)
    requires j <= |s|
    ensures m.Some? ==> IsDottedQuad(m.value) && BracketedAt(s, j, m.value)
  {
    match SpacedChar(s, j, ':')
    case None => None
    case Some(c) =>
      match SpacedChar(s, c + 1, '[')
      case None => None
      case Some(l) =>
        match QuadThen(s, l + 1, ']')
        case None => None
        case Some(q) =>
          BracketedIntro(s, j, c, l, q);
          Some(q)
  }

  /** `\s*` then the character `c`, from position `j`: the position of that `c`. */
  function SpacedChar(s: string, j: nat, c: char): (r: Option<nat>)
    requires j <= |s|
    ensures r.Some? ==> j <= r.value < |s| && Spaces(s, j, r.value) && s[r.value] == c
  {
    var k := j + SpaceRun(s, j);
    if k < |s| && s[k] == c then Some(k) else None
  }

  /** The lease tail at each position of `s`. */
  function LeaseTails(s: string): nat -> Option<string> {
    (k: nat) => if k <= |s| then LeaseTail(s, k) else None
  }

  /** A lazy `.*?` followed by what `f` matches, from position `j`: the scan
      stops at the first position where `f` has a result, and does not cross a "\n". */
  function LineScan(s: string, j: nat, f: nat -> Option<string>): Option<string>
    requires j <= |s|
    decreases |s| - j
  {
    if f(j).Some? then f(j)
    else if j == |s| || s[j] == '\n' then None
    else LineScan(s, j + 1, f)
  }

  /** What the scan finds is `f` at the first position where `f` has a result,
      with no line break before it. */
  lemma {:induction false} LineScanSpec(s: string, j: nat, f: nat -> Option<string>)
    requires j <= |s|
    ensures LineScan(s, j, f).Some? ==>
      exists k: nat :: NoBreak(s, j, k) && LineScan(s, j, f) == f(k) &&
        (forall t :: j <= t < k ==> f(t).None?)
    decreases |s| - j
  {
    if f(j).Some? {
      assert NoBreak(s, j, j);
    } else if j < |s| && s[j] != '\n' {
      LineScanSpec(s, j + 1, f);
      if LineScan(s, j, f).Some? {
        var k: nat :| NoBreak(s, j + 1, k) && LineScan(s, j + 1, f) == f(k) &&
          (forall t :: j + 1 <= t < k ==> f(t).None?);
        assert NoBreak(s, j, k);
      }
    }
  }

  /** `.*?` followed by the lease tail from position `j`. */
  function LeaseFrom(s: string, j: nat): (m: Option<string>)
    requires j <= |s|
    ensures m.Some? ==> IsDottedQuad(m.value)
  {
    LineScanSpec(s, j, LeaseTails(s));
    LineScan(s, j, LeaseTails(s))
  }

  /** `(?:addr:|)(\d{1,3}(?:\.\d{1,3}){3})` at position `j`: "addr:" is taken
      whenever a quad follows it, else the quad must start at `j`. */
  function AddrOrQuad(s: string, j: nat): (m: Option<string>)
    requires j <= |s|
    ensures m.Some? ==> IsDottedQuad(m.value)
    ensures m.Some? ==>
      if LiteralAt(s, j, "addr:") && QuadFree(s, j + 5).Some? then TextAt(s, j + 5, m.value) else TextAt(s, j, m.value)
  {
    if LiteralAt(s, j, "addr:") && QuadFree(s, j + 5).Some? then QuadFree(s, j + 5)
    else QuadFree(s, j)
  }

  /** The captured address when pattern `p` matches at position `i`. */
  function MatchAt(p: Pattern, s: string, i: nat): (m: Option<string>)
    requires i <= |s|
    ensures m.Some? ==> IsDottedQuad(m.value)
  {
    match p
    case RouteSrc =>
      (match AfterKeyword(s, i, "src")
       case None => None
       case Some(j) => QuadFree(s, j))
    case AddrInet =>
      (match AfterKeyword(s, i, "inet")
       case None => None
       case Some(j) => QuadThen(s, j, '/'))
    case IfconfigInet =>
      (match AfterKeyword(s, i, "inet")
       case None => None
       case Some(j) => AddrOrQuad(s, j))
    case DhcpLease =>
      // `\d*` of the interface name is covered by the `.*?` scan: a digit never starts "ipaddress]"
      if LiteralAt(s, i, "dhcp.wlan") then LeaseFrom(s, i + 9) else None
  }

  /** The result at the leftmost position from `i` up to `n` where `f` has one. */
  function FirstMatch(f: nat -> Option<string>, i: nat, n: nat): Option<string>
    requires i <= n
    decreases n - i
  {
    if f(i).Some? then f(i)
    else if i == n then None
    else FirstMatch(f, i + 1, n)
  }

  /** `FirstMatch` finds a result exactly when some position has one, and
      then the result of the leftmost such position. */
  lemma {:induction false} FirstMatchSpec(f: nat -> Option<string>, i: nat, n: nat)
    requires i <= n
    ensures FirstMatch(f, i, n).None? <==> forall j :: i <= j <= n ==> f(j).None?
    ensures FirstMatch(f, i, n).Some? ==>
      exists k :: i <= k <= n && FirstMatch(f, i, n) == f(k) && forall j :: i <= j < k ==> f(j).None?
    decreases n - i
  {
    if f(i).None? && i < n {
      FirstMatchSpec(f, i + 1, n);
      if FirstMatch(f, i + 1, n).Some? {
        var k :| i + 1 <= k <= n && FirstMatch(f, i + 1, n) == f(k) && forall j :: i + 1 <= j < k ==> f(j).None?;
        assert forall j :: i <= j < k ==> f(j).None?;
      }
    }
  }

  /** The match of `p` at each position of `s`; `Search` is `re.search`
      through `FirstMatch` and `FirstMatchSpec` is its semantics. */
  function Matcher(p: Pattern, s: string): nat -> Option<string> {
    (j: nat) => if j <= |s| then MatchAt(p, s, j) else None
  }

  /** `re.search(p, s)` and the address group of the match: the leftmost position tried first. */
  function Search(p: Pattern, s: string): (m: Option<string>)
    ensures m.Some? ==> IsDottedQuad(m.value)
  {
    FirstMatchSpec(Matcher(p, s), 0, |s|);
    FirstMatch(Matcher(p, s), 0, |s|)
  }

  /** `^\d{1,3}(?:\.\d{1,3}){3}` matched against the whole of `x`. */
  predicate QuadShape(x: string) {
    Dotted(x, 4, true) == Some(|x|)
  }

  /** `re.match(r"^\d{1,3}(?:\.\d{1,3}){3}$", v)`, `$` included. */
  predicate IsBareQuad(v: string) {
    QuadShape(v) || (v != [] && v[|v| - 1] == '\n' && QuadShape(v[..|v| - 1]))
  }

  /** A stripped property value passes the bare-quad test exactly when it is a dotted quad. */
  lemma BareQuadOfStripped(v: string)
    requires v == [] || !IsSpace(v[|v| - 1])
    ensures IsBareQuad(v) <==> IsDottedQuad(v)
  {
    Whole(v);
    if QuadShape(v) {
      DottedSound(v, 4, true, |v|);
    }
    if IsDottedQuad(v) {
      DottedComplete(v, [], 4);
    }
  }

  // ----- what a match means -----

  /** `s[a..b]` is whitespace. */
  predicate Spaces(s: string, a: nat, b: nat) {
    a <= b <= |s| && forall k :: a <= k < b ==> IsSpace(s[k])
  }

  /** `s[a..b]` holds no "\n". */
  predicate NoBreak(s: string, a: nat, b: nat) {
    a <= b <= |s| && forall t :: a <= t < b ==> s[t] != '\n'
  }

  /** `\bkw\s+` occupies `s[i..j]`. */
  predicate KeywordAt(s: string, i: nat, kw: string, j: nat) {
    LiteralAt(s, i, kw) && (i == 0 || !IsWordChar(s[i - 1])) && i + |kw| < j && Spaces(s, i + |kw|, j)
  }

  /** The text `q` stands at position `j`. */
  predicate TextAt(s: string, j: nat, q: string) {
    j + |q| <= |s| && s[j..j + |q|] == q
  }

  /** `\s*:\s*\[q\]` starts at position `j`. */
  ghost predicate BracketedAt(s: string, j: nat, q: string) {
    exists c: nat, l: nat :: Spaces(s, j, c) && c < |s| && s[c] == ':' && Spaces(s, c + 1, l) && l < |s| && s[l] == '[' &&
      TextAt(s, l + 1, q) && l + 1 + |q| < |s| && s[l + 1 + |q|] == ']'
  }

  /** `ipaddress\]\s*:\s*\[q\]` starts at position `k`. */
  ghost predicate LeaseTailAt(s: string, k: nat, q: string) {
    LiteralAt(s, k, "ipaddress]") && BracketedAt(s, k + 10, q)
  }

  /** A `src` match is the word `src`, whitespace, then the captured quad. */
  lemma RouteSrcSound(s: string, i: nat)
    requires i <= |s|
    ensures var m := MatchAt(RouteSrc, s, i);
      m.Some? ==> exists j: nat :: KeywordAt(s, i, "src", j) && TextAt(s, j, m.value)
  {
    var m := MatchAt(RouteSrc, s, i);
    if m.Some? {
      var j := AfterKeyword(s, i, "src").value;
      assert m == QuadFree(s, j);
      assert KeywordAt(s, i, "src", j) && TextAt(s, j, m.value);
    }
  }

  /** An `ip addr` match is the word `inet`, whitespace, the captured quad, then '/'. */
  lemma AddrInetSound(s: string, i: nat)
    requires i <= |s|
    ensures var m := MatchAt(AddrInet, s, i);
      m.Some? ==>
        exists j: nat :: KeywordAt(s, i, "inet", j) && TextAt(s, j, m.value) &&
          j + |m.value| < |s| && s[j + |m.value|] == '/'
  {
    var m := MatchAt(AddrInet, s, i);
    if m.Some? {
      var j := AfterKeyword(s, i, "inet").value;
      assert m == QuadThen(s, j, '/');
      assert KeywordAt(s, i, "inet", j) && TextAt(s, j, m.value);
    }
  }

  /** An `ifconfig` match is the word `inet`, whitespace, an optional "addr:",
      then the captured quad; "addr:" is taken whenever a quad follows it. */
  lemma IfconfigInetSound(s: string, i: nat)
    requires i <= |s|
    ensures var m := MatchAt(IfconfigInet, s, i);
      m.Some? ==>
        exists j: nat :: KeywordAt(s, i, "inet", j) && m == AddrOrQuad(s, j)
  {
    var m := MatchAt(IfconfigInet, s, i);
    if m.Some? {
      var j := AfterKeyword(s, i, "inet").value;
      assert KeywordAt(s, i, "inet", j) && m == AddrOrQuad(s, j);
    }
  }

  /** The positions of ':' and '[' witness `BracketedAt`. */
  lemma BracketedIntro(s: string, j: nat, c: nat, l: nat, q: string)
    requires Spaces(s, j, c) && c < |s| && s[c] == ':' && Spaces(s, c + 1, l) && l < |s| && s[l] == '['
    requires TextAt(s, l + 1, q) && l + 1 + |q| < |s| && s[l + 1 + |q|] == ']'
    ensures BracketedAt(s, j, q)
  {
  }

  /** The lazy scan stops at the first position from `j`, on the same line, where a lease tail matches. */
  lemma LeaseFromFirst(s: string, j: nat)
    requires j <= |s|
    ensures LeaseFrom(s, j).Some? ==>
      exists k: nat :: NoBreak(s, j, k) && LeaseFrom(s, j) == LeaseTail(s, k) &&
        (forall t :: j <= t < k ==> LeaseTail(s, t).None?)
  {
    var f := LeaseTails(s);
    LineScanSpec(s, j, f);
    if LeaseFrom(s, j).Some? {
      var k: nat :| NoBreak(s, j, k) && LineScan(s, j, f) == f(k) && (forall t :: j <= t < k ==> f(t).None?);
      assert f(k) == LeaseTail(s, k);
      forall t | j <= t < k ensures LeaseTail(s, t).None? {
        assert f(t) == LeaseTail(s, t);
      }
    }
  }

  /** The lazy scan finds the tail at the first position from `j`, on the same line. */
  lemma LeaseFromSound(s: string, j: nat)
    requires j <= |s|
    ensures LeaseFrom(s, j).Some? ==>
      exists k: nat :: NoBreak(s, j, k) && LeaseTailAt(s, k, LeaseFrom(s, j).value) &&
        (forall t :: j <= t < k ==> LeaseTail(s, t).None?)
  {
    LeaseFromFirst(s, j);
    if LeaseFrom(s, j).Some? {
      var k: nat :| NoBreak(s, j, k) && LeaseFrom(s, j) == LeaseTail(s, k) && (forall t :: j <= t < k ==> LeaseTail(s, t).None?);
    }
  }

  /** A lease match is "dhcp.wlan", a line's worth of anything, then the first
      `ipaddress]: [q]` on that line. */
  lemma DhcpLeaseSound(s: string, i: nat)
    requires i <= |s|
    ensures var m := MatchAt(DhcpLease, s, i);
      m.Some? ==>
        LiteralAt(s, i, "dhcp.wlan") &&
        exists k: nat :: NoBreak(s, i + 9, k) && LeaseTailAt(s, k, m.value) &&
          (forall t :: i + 9 <= t < k ==> LeaseTail(s, t).None?)
  {
    if LiteralAt(s, i, "dhcp.wlan") {
      LeaseFromSound(s, i + 9);
    }
  }

  /** A run of `n` whitespace characters ended by a non-space. */
  lemma {:induction false} SpaceRunIs(s: string, i: nat, n: nat)
    requires Spaces(s, i, i + n) && (i + n == |s| || !IsSpace(s[i + n]))
    ensures SpaceRun(s, i) == n
    decreases n
  {
    if n > 0 {
      SpaceRunIs(s, i + 1, n - 1);
    }
  }

  /** `\bkw\s+` ending before a non-space is what `AfterKeyword` finds. */
  lemma AfterKeywordAt(s: string, i: nat, kw: string, j: nat)
    requires KeywordAt(s, i, kw, j) && (j == |s| || !IsSpace(s[j]))
    ensures AfterKeyword(s, i, kw) == Some(j)
  {
    SpaceRunIs(s, i + |kw|, j - i - |kw|);
  }

  lemma QuadStartsWithDigit(q: string)
    requires IsDottedQuad(q)
    ensures q != [] && IsDigit(q[0])
  {
    var g := q[..IndexOf(q, '.')];
    assert g[0] == q[0];
  }

  /** Conversely, the word `inet` after a non-word character, whitespace, a
      dotted quad and '/' is an `ip addr` match capturing that quad. */
  lemma AddrInetComplete(s: string, i: nat, j: nat, q: string)
    requires KeywordAt(s, i, "inet", j) && TextAt(s, j, q) && IsDottedQuad(q)
    requires j + |q| < |s| && s[j + |q|] == '/'
    ensures MatchAt(AddrInet, s, i) == Some(q)
  {
    QuadAt(s, j, q);
    AfterKeywordAt(s, i, "inet", j);
    QuadThenAt(s, j, '/', q);
  }

  /** The word `src` after a non-word character, whitespace, then a dotted quad
      not followed by a digit, is a route match capturing that quad. */
  lemma RouteSrcComplete(s: string, i: nat, j: nat, q: string)
    requires KeywordAt(s, i, "src", j) && TextAt(s, j, q) && IsDottedQuad(q)
    requires j + |q| == |s| || !IsDigit(s[j + |q|])
    ensures MatchAt(RouteSrc, s, i) == Some(q)
  {
    QuadAt(s, j, q);
    AfterKeywordAt(s, i, "src", j);
    QuadFreeAt(s, j, q);
  }

  /** The word `inet`, whitespace, "addr:" and a dotted quad not followed by a
      digit is an `ifconfig` match capturing that quad. */
  lemma IfconfigAddrComplete(s: string, i: nat, j: nat, q: string)
    requires KeywordAt(s, i, "inet", j) && LiteralAt(s, j, "addr:") && TextAt(s, j + 5, q) && IsDottedQuad(q)
    requires j + 5 + |q| == |s| || !IsDigit(s[j + 5 + |q|])
    ensures MatchAt(IfconfigInet, s, i) == Some(q)
  {
    LiteralFirst(s, j, "addr:");
    AfterKeywordAt(s, i, "inet", j);
    QuadFreeAt(s, j + 5, q);
    AddrTaken(s, j, q);
    IfconfigOf(s, i, j, q);
  }

  lemma AddrTaken(s: string, j: nat, q: string)
    requires j + 5 <= |s| && LiteralAt(s, j, "addr:") && QuadFree(s, j + 5) == Some(q)
    ensures AddrOrQuad(s, j) == Some(q)
  {
  }

  lemma IfconfigOf(s: string, i: nat, j: nat, q: string)
    requires i <= j <= |s| && AfterKeyword(s, i, "inet") == Some(j) && AddrOrQuad(s, j) == Some(q)
    ensures MatchAt(IfconfigInet, s, i) == Some(q)
  {
  }

  /** The word `inet`, whitespace and a dotted quad not followed by a digit is an
      `ifconfig` match capturing that quad (the quad cannot start "addr:"). */
  lemma IfconfigBareComplete(s: string, i: nat, j: nat, q: string)
    requires KeywordAt(s, i, "inet", j) && TextAt(s, j, q) && IsDottedQuad(q)
    requires j + |q| == |s| || !IsDigit(s[j + |q|])
    ensures MatchAt(IfconfigInet, s, i) == Some(q)
  {
    QuadAt(s, j, q);
    AfterKeywordAt(s, i, "inet", j);
    LiteralFirst(s, j, "addr:");
    QuadFreeAt(s, j, q);
  }

  /** A literal at `j` starts with its first character there. */
  lemma LiteralFirst(s: string, j: nat, lit: string)
    requires lit != [] && j < |s|
    ensures LiteralAt(s, j, lit) ==> s[j] == lit[0]
  {
    if LiteralAt(s, j, lit) {
      assert s[j] == s[j..j + |lit|][0];
    }
  }

  /** A dotted quad standing at `j` puts a digit there. */
  lemma QuadAt(s: string, j: nat, q: string)
    requires TextAt(s, j, q) && IsDottedQuad(q)
    ensures j < |s| && IsDigit(s[j])
  {
    QuadStartsWithDigit(q);
    assert s[j] == s[j..j + |q|][0];
  }

  /** A dotted quad at `j` followed by a non-digit `c` is what `QuadThen` captures. */
  lemma QuadThenAt(s: string, j: nat, c: char, q: string)
    requires TextAt(s, j, q) && IsDottedQuad(q) && j + |q| < |s| && s[j + |q|] == c && !IsDigit(c)
    ensures QuadThen(s, j, c) == Some(q)
  {
    var x := s[j..];
    assert x[..|q|] == s[j..j + |q|];
    DottedCompleteAt(x, |q|, 4);
  }

  /** A dotted quad at `j` not followed by a digit is what `QuadFree` captures. */
  lemma QuadFreeAt(s: string, j: nat, q: string)
    requires TextAt(s, j, q) && IsDottedQuad(q) && (j + |q| == |s| || !IsDigit(s[j + |q|]))
    ensures QuadFree(s, j) == Some(q)
  {
    var x := s[j..];
    assert x[..|q|] == s[j..j + |q|];
    DottedCompleteAt(x, |q|, 4);
    DottedExact(x, 4);
  }

  /** Where the exact match succeeds, the free match takes the same length. */
  lemma {:induction false} DottedExact(x: string, n: nat)
    requires Dotted(x, n, true).Some?
    ensures Dotted(x, n, false) == Dotted(x, n, true)
    decreases n
  {
    var r := LeadingDigits(x);
    if n > 1 {
      DottedExact(x[r + 1..], n - 1);
    }
  }

  /** Four groups of one to three digits joined by '.' make a dotted quad. */
  lemma QuadOfGroups(q: string, g1: string, g2: string, g3: string, g4: string)
    requires IsDecimal(g1, 1, 3) && IsDecimal(g2, 1, 3) && IsDecimal(g3, 1, 3) && IsDecimal(g4, 1, 3)
    requires q == g1 + ['.'] + g2 + ['.'] + g3 + ['.'] + g4
    ensures IsDottedQuad(q)
  {
    var r2 := g3 + ['.'] + g4;
    var r3 := g2 + ['.'] + r2;
    assert q == g1 + ['.'] + r3;
    DotGroupsCons(g3, g4, 2, r2);
    DotGroupsCons(g2, r2, 3, r3);
    DotGroupsCons(g1, r3, 4, q);
  }

  /** The text of `ip -o -4 addr show wlan0` for an interface that is up: the
      search captures the address before the prefix length. */
  lemma AddrInetExample(s: string, q: string)
    requires s == "inet 192.168.1.77/24" && q == "192.168.1.77"
    ensures Search(AddrInet, s) == Some(q)
  {
    AddrInetExampleAt(s, q);
    assert Matcher(AddrInet, s)(0) == Some(q);
  }

  lemma AddrInetExampleAt(s: string, q: string)
    requires s == "inet 192.168.1.77/24" && q == "192.168.1.77"
    ensures MatchAt(AddrInet, s, 0) == Some(q)
  {
    assert s[0..4] == "inet" && s[5..17] == q && s[4] == ' ' && s[17] == '/';
    ExampleQuad(q);
    AddrInetComplete(s, 0, 5, q);
  }

  lemma ExampleQuad(q: string)
    requires q == "192.168.1.77"
    ensures IsDottedQuad(q)
  {
    assert q == "192" + ['.'] + "168" + ['.'] + "1" + ['.'] + "77";
    QuadOfGroups(q, "192", "168", "1", "77");
  }
}
