/** Attaching a device to the USB device named by a path: parsing the path with string cursors and
    walking the device tree upwards. */
module UsbPath {
  import opened Arithmetic
  import opened Wrappers

  const MAX_EVDI_USB_ADDR := 10

  // ---- Strings as the kernel's helpers cut them ----

  predicate IsSpace(c: char) {
    c == ' ' || '\t' <= c <= '\r' || c == 0xA0 as char
  }

  /** The part from the first "usb:" on. */
  function FromUsb(s: string): Option<string> {
    if |s| < 4 then None else if s[..4] == "usb:" then Some(s) else FromUsb(s[1..])
  }

  function Trimmed(s: string): string {
    if s != [] && IsSpace(s[|s| - 1]) then Trimmed(s[..|s| - 1]) else s
  }

  lemma SpacesAre(c: char)
    ensures IsSpace(c) <==> c as int in {9, 10, 11, 12, 13, 32, 160}
  {
  }

  /** Exactly the white space at the end is cut. */
  lemma {:induction false} TrimmedCuts(s: string)
    ensures var t := Trimmed(s);
      && t <= s && (t != [] ==> !IsSpace(t[|t| - 1]))
      && forall i :: |t| <= i < |s| ==> IsSpace(s[i])
  {
    if s != [] && IsSpace(s[|s| - 1]) {
      TrimmedCuts(s[..|s| - 1]);
    }
  }

  predicate UsbAt(s: string, i: nat) {
    i + 4 <= |s| && s[i..i + 4] == "usb:"
  }

  /** The text is found from its first "usb:" on, if it has one. */
  lemma {:induction false} FromUsbIsFirst(s: string)
    ensures match FromUsb(s)
      case Some(t) =>
        && |t| <= |s| && t == s[|s| - |t|..] && UsbAt(s, |s| - |t|)
        && forall i :: 0 <= i < |s| - |t| ==> !UsbAt(s, i)
      case None => forall i :: 0 <= i <= |s| ==> !UsbAt(s, i)
  {
    if |s| >= 4 && s[..4] != "usb:" {
      FromUsbIsFirst(s[1..]);
      forall i | 1 <= i && i + 4 <= |s|
        ensures UsbAt(s, i) <==> UsbAt(s[1..], i - 1)
      {
        assert s[1..][i - 1..i + 3] == s[i..i + 4];
      }
      assert s[0..4] == s[..4];
    } else if |s| >= 4 {
      assert s[0..4] == s[..4] && s[0..] == s;
    }
  }

  /** The index of the first `c` at or after `from`, or the end. */
  function FirstOf(s: string, c: char, from: nat): (k: nat)
    requires from <= |s|
    ensures from <= k <= |s| && (k < |s| ==> s[k] == c)
    ensures forall i :: from <= i < k ==> s[i] != c
    decreases |s| - from
  {
    if from == |s| || s[from] == c then from else FirstOf(s, c, from + 1)
  }

  /** Up to the first `c`, or all of it. */
  function Until(s: string, c: char): string {
    s[..FirstOf(s, c, 0)]
  }

  /** After the first `c`, if there is one. */
  function After(s: string, c: char): Option<string> {
    var k := FirstOf(s, c, 0);
    if k < |s| then Some(s[k + 1..]) else None
  }

  /** Where the `n`th piece between the `c`s starts; beyond the end if there is none. */
  function Start(s: string, c: char, n: nat): nat {
    if n == 0 then 0
    else
      var k := Start(s, c, n - 1);
      if k > |s| then k else FirstOf(s, c, k) + 1
  }

  function Piece(s: string, c: char, n: nat): string
    requires Start(s, c, n) <= |s|
  {
    var k := Start(s, c, n);
    s[k..FirstOf(s, c, k)]
  }

  /** Whether there are only digits from `i` up to `j`. */
  predicate Digits(s: string, i: nat, j: nat)
    requires i <= j <= |s|
  {
    forall k :: i <= k < j ==> '0' <= s[k] <= '9'
  }

  function Value(s: string, i: nat, j: nat): nat
    requires i <= j <= |s| && Digits(s, i, j)
  {
    if i == j then 0 else 10 * Value(s, i, j - 1) + (s[j - 1] as int - '0' as int)
  }

  function AfterPlus(s: string): (i: nat)
    ensures i <= |s|
  {
    if s != [] && s[0] == '+' then 1 else 0
  }

  function BeforeNewline(s: string): (j: nat)
    ensures AfterPlus(s) <= j <= |s|
  {
    if |s| > AfterPlus(s) && s[|s| - 1] == '\n' then |s| - 1 else |s|
  }

  /** An unsigned 32-bit number in base 10; a leading '+' and one final newline are let pass. */
  function UIntOf(s: string): Option<nat> {
    var i, j := AfterPlus(s), BeforeNewline(s);
    if i < j && Digits(s, i, j) && Value(s, i, j) < TWO_TO_32 then Some(Value(s, i, j)) else None
  }

  /** The texts that read as `n`: its digits, whatever zeroes lead, after an optional '+' and before an optional
      newline. */
  ghost predicate Spells(s: string, digits: string, n: nat) {
    && digits != [] && Digits(digits, 0, |digits|) && Value(digits, 0, |digits|) == n < TWO_TO_32
    && (s == digits || s == "+" + digits || s == digits + "\n" || s == "+" + digits + "\n")
  }

  lemma {:induction false} ValueShift(s: string, t: string, d: nat, n: nat)
    requires d + n <= |s| && n <= |t| && forall k :: 0 <= k < n ==> s[d + k] == t[k]
    requires Digits(t, 0, n)
    ensures Digits(s, d, d + n) && Value(s, d, d + n) == Value(t, 0, n)
  {
    forall k | d <= k < d + n
      ensures '0' <= s[k] <= '9'
    {
      assert s[d + (k - d)] == t[k - d];
    }
    if n > 0 {
      ValueShift(s, t, d, n - 1);
      assert s[d + (n - 1)] == t[n - 1];
    }
  }

  /** Exactly these texts are read. */
  lemma UIntReadsIff(s: string, n: nat)
    ensures UIntOf(s) == Some(n) <==> exists digits :: Spells(s, digits, n)
  {
    if UIntOf(s) == Some(n) {
      var i, j := AfterPlus(s), BeforeNewline(s);
      var digits := s[i..j];
      assert forall k :: 0 <= k < |digits| ==> s[i + k] == digits[k];
      ValueShift(s, digits, i, |digits|);
      SpelledOut(s);
      assert Spells(s, digits, n);
    }
    if digits :| Spells(s, digits, n) {
      SpelledReads(s, digits, n);
    }
  }

  lemma SpelledOut(s: string)
    requires AfterPlus(s) < BeforeNewline(s)
    ensures var d := s[AfterPlus(s)..BeforeNewline(s)];
      s == d || s == "+" + d || s == d + "\n" || s == "+" + d + "\n"
  {
    var i, j := AfterPlus(s), BeforeNewline(s);
    assert s == s[..i] + s[i..j] + s[j..];
    assert i == 1 ==> s[..i] == "+";
    assert j < |s| ==> s[j..] == "\n";
  }

  lemma SpelledReads(s: string, digits: string, n: nat)
    requires Spells(s, digits, n)
    ensures UIntOf(s) == Some(n)
  {
    var i := AfterPlus(s);
    SpelledBounds(s, digits, n);
    hide AfterPlus, BeforeNewline;
    ValueShift(s, digits, i, |digits|);
  }

  lemma SpelledBounds(s: string, digits: string, n: nat)
    requires Spells(s, digits, n)
    ensures BeforeNewline(s) == AfterPlus(s) + |digits| <= |s|
    ensures forall k :: 0 <= k < |digits| ==> s[AfterPlus(s) + k] == digits[k]
  {
    hide Value;
    var n := |digits|;
    assert '0' <= digits[0] <= '9' && '0' <= digits[n - 1] <= '9';
    if s == digits {
      assert s[0] == digits[0] && s[n - 1] == digits[n - 1];
    } else if s == "+" + digits {
      assert s[0] == '+' && s[n] == digits[n - 1];
    } else if s == digits + "\n" {
      assert s[0] == digits[0] && s[n] == '\n';
    } else {
      assert s[0] == '+' && s[n + 1] == '\n';
    }
  }

  /** The same 32 bits as an int. */
  function AsInt(n: nat): int {
    if n < 0x8000_0000 then n else n - TWO_TO_32
  }

  lemma IntKeepsBits(n: nat)
    requires n < TWO_TO_32
    ensures -0x8000_0000 <= AsInt(n) < 0x8000_0000 && (AsInt(n) - n) % TWO_TO_32 == 0
  {
  }

  // ---- The grammar of a path ----

  /** How many pieces there are, counting no more than `room`. */
  function Pieces(s: string, c: char, room: nat): (m: nat)
    ensures m <= room && (forall k :: 0 <= k < m ==> Start(s, c, k) <= |s|) && (m < room ==> Start(s, c, m) > |s|)
  {
    if room == 0 then 0
    else
      var m := Pieces(s, c, room - 1);
      if m == room - 1 && Start(s, c, m) <= |s| then room else m
  }

  function Port(s: string, k: nat): Option<int> {
    if Start(s, '.', k) > |s| then None
    else
      var number := UIntOf(Piece(s, '.', k));
      if number.None? then None else Some(AsInt(number.value))
  }

  /** The pieces between dots as numbers; at most `room` are looked at. */
  function Ports(s: string, room: nat): Option<seq<int>> {
    var m := Pieces(s, '.', room);
    if forall k :: 0 <= k < m ==> Port(s, k).Some?
    then Some(seq(m, k requires 0 <= k < m => Port(s, k).value)) else None
  }

  function Address(token: string): Option<seq<int>> {
    var bus := UIntOf(Until(token, '-'));
    if bus.None? || After(token, '-').None? then None
    else
      var ports := Ports(After(token, '-').value, MAX_EVDI_USB_ADDR - 1);
      if ports.None? then None else Some([AsInt(bus.value)] + ports.value)
  }

  function Parse(buf: string): Option<seq<int>> {
    var path := FromUsb(buf);
    if path.None? then None
    else
      var rest := After(Trimmed(path.value), ':');
      if rest.None? then None else Address(Until(rest.value, ':'))
  }

  ghost predicate IsAddress(token: string, bus: string, ports: string) {
    && token == bus + "-" + ports && '-' !in bus && UIntOf(bus).Some?
    && forall k :: 0 <= k < Pieces(ports, '.', 9) ==> Port(ports, k).Some?
  }

  lemma AddressParts(token: string)
    ensures Address(token).Some? <==>
      && UIntOf(Until(token, '-')).Some? && After(token, '-').Some?
      && forall k :: 0 <= k < Pieces(After(token, '-').value, '.', 9) ==> Port(After(token, '-').value, k).Some?
  {
  }

  lemma CutAt(token: string, c: char, a: string, b: string)
    requires token == a + [c] + b && c !in a
    ensures Until(token, c) == a && After(token, c).Some? && After(token, c).value == b
  {
    assert token[|a|] == c && forall i :: 0 <= i < |a| ==> token[i] == a[i];
    assert FirstOf(token, c, 0) == |a|;
    assert token[..|a|] == a && token[|a| + 1..] == b;
  }

  lemma CutIs(token: string, c: char)
    requires After(token, c).Some?
    ensures token == Until(token, c) + [c] + After(token, c).value && c !in Until(token, c)
  {
  }

  /** An address is a number, '-', and one to nine numbers between dots; more are not looked at. */
  lemma AddressIff(token: string)
    ensures Address(token).Some? <==> exists bus, ports :: IsAddress(token, bus, ports)
  {
    AddressParts(token);
    hide Address, Until, After, UIntOf, Pieces, Port;
    if Address(token).Some? {
      CutIs(token, '-');
      assert IsAddress(token, Until(token, '-'), After(token, '-').value);
    }
    if bus, ports :| IsAddress(token, bus, ports) {
      CutAt(token, '-', bus, ports);
    }
  }

  lemma UsbStays(path: string)
    requires |path| >= 4 && path[..4] == "usb:"
    ensures |Trimmed(path)| >= 4 && Trimmed(path)[..4] == "usb:"
  {
    TrimmedCuts(path);
    assert path[3] == path[..4][3] == ':';
    assert Trimmed(path) == path[..|Trimmed(path)|];
  }

  /** The address is what stands between the first "usb:" and a colon or white space at the end. */
  lemma ParseIs(buf: string)
    ensures FromUsb(buf).None? ==> Parse(buf).None?
    ensures FromUsb(buf).Some? ==>
      var t := Trimmed(FromUsb(buf).value);
      |t| >= 4 && Parse(buf) == Address(Until(t[4..], ':'))
  {
    FromUsbIsFirst(buf);
    hide FromUsb, Trimmed, Until, After, Address;
    if FromUsb(buf).Some? {
      var path := FromUsb(buf).value;
      var t := Trimmed(path);
      assert path[..4] == "usb:";
      UsbStays(path);
      assert t[..4] == "usb" + [':'] && t == t[..4] + t[4..] == "usb" + [':'] + t[4..];
      CutAt(t, ':', "usb", t[4..]);
    }
  }

  // ---- The parser ----

  /** The token before the first `delim`; the cursor moves past it, or is gone. */
  method Strsep(s: string, delim: char) returns (token: string, rest: Option<string>)
    ensures token == Until(s, delim) && rest == After(s, delim)
  {
    var i := 0;
    while i < |s| && s[i] != delim
      invariant i <= |s|
      invariant forall j :: 0 <= j < i ==> s[j] != delim
    {
      i := i + 1;
    }
    assert i == FirstOf(s, delim, 0);
    token := s[..i];
    rest := if i < |s| then Some(s[i + 1..]) else None;
  }

  method StrNStrUsb(s: string) returns (found: Option<string>)
    ensures found == FromUsb(s)
  {
    var i := 0;
    while i + 4 <= |s|
      invariant i <= |s|
      invariant FromUsb(s) == FromUsb(s[i..])
    {
      if s[i..i + 4] == "usb:" {
        assert s[i..][..4] == s[i..i + 4];
        return Some(s[i..]);
      }
      assert s[i..][..4] == s[i..i + 4] && s[i..][1..] == s[i + 1..];
      i := i + 1;
    }
    found := None;
  }

  method Strim(s: string) returns (trimmed: string)
    ensures trimmed == Trimmed(s)
  {
    var end := |s|;
    assert s[..end] == s;
    while end > 0 && IsSpace(s[end - 1])
      invariant 0 <= end <= |s|
      invariant Trimmed(s) == Trimmed(s[..end])
    {
      assert s[..end][..end - 1] == s[..end - 1];
      end := end - 1;
    }
    trimmed := s[..end];
  }

  method KStrToUInt(s: string) returns (value: Option<nat>)
    ensures value == UIntOf(s)
  {
    var start := if s != [] && s[0] == '+' then 1 else 0;
    var i, sum := start, 0;
    while i < |s| && '0' <= s[i] <= '9'
      invariant start <= i <= |s| && Digits(s, start, i) && sum == Value(s, start, i)
    {
      sum := 10 * sum + (s[i] as int - '0' as int);
      i := i + 1;
    }
    var end := if i < |s| && s[i] == '\n' then i + 1 else i;
    value := if i > start && end == |s| && sum < TWO_TO_32 then Some(sum) else None;
  }

  /** One round of the number loop. */
  method ParsePort(ghost token: string, cursor: string, n: nat, addr: array<int>)
    returns (ok: bool, rest: Option<string>)
    requires 1 <= n < MAX_EVDI_USB_ADDR == addr.Length
    requires IsAtPiece(token, Some(cursor), n - 1) && AreRead(token, addr[1..n])
    modifies addr
    ensures addr[..n] == old(addr[..n])
    ensures if ok then IsAtPiece(token, rest, n) && AreRead(token, addr[1..n + 1])
            else Ports(token, MAX_EVDI_USB_ADDR - 1).None?
  {
    hide *;
    ghost var before := addr[1..n];
    var port;
    port, rest := Strsep(cursor, '.');
    var number := KStrToUInt(port);
    NextPiece(token, cursor, n - 1);
    ok := number.Some?;
    if ok {
      addr[n] := AsInt(number.value);
      assert addr[1..n + 1] == before + [addr[n]];
      GoodPort(token, before, addr[n]);
    } else {
      BadPort(token, before, MAX_EVDI_USB_ADDR - 1);
    }
  }

  /** The number loop: fills `addr` from index 1 on. */
  method ParsePorts(token: string, addr: array<int>) returns (len: Option<nat>)
    requires addr.Length == MAX_EVDI_USB_ADDR
    modifies addr
    ensures addr[0] == old(addr[0])
    ensures var ports := Ports(token, MAX_EVDI_USB_ADDR - 1);
      && len.Some? == ports.Some?
      && (len.Some? ==> 1 <= len.value <= addr.Length && addr[1..len.value] == ports.value)
  {
    hide UIntOf, Piece, Ports;
    var cursor, n := Some(token), 1;
    assert token[0..] == token;
    while cursor.Some? && n < MAX_EVDI_USB_ADDR
      invariant 1 <= n <= MAX_EVDI_USB_ADDR && addr[..1] == old(addr[..1])
      invariant IsAtPiece(token, cursor, n - 1) && AreRead(token, addr[1..n])
      decreases MAX_EVDI_USB_ADDR - n
    {
      ghost var before := addr[..n];
      var ok, rest := ParsePort(token, cursor.value, n, addr);
      assert addr[..1] == addr[..n][..1] == before[..1];
      if !ok {
        return None;
      }
      n := n + 1;
      cursor := rest;
    }
    PortsAre(token, addr[1..n], MAX_EVDI_USB_ADDR - 1);
    len := Some(n);
  }

  /** `done` are the first pieces. */
  ghost predicate AreRead(token: string, done: seq<int>) {
    forall k :: 0 <= k < |done| ==> Port(token, k) == Some(done[k])
  }

  lemma PortsAre(token: string, done: seq<int>, room: nat)
    requires AreRead(token, done) && |done| <= room && (|done| < room ==> Start(token, '.', |done|) > |token|)
    ensures Ports(token, room).Some? && Ports(token, room).value == done
  {
    var m := Pieces(token, '.', room);
    var next := Port(token, m);
    assert m == |done|;
  }

  lemma GoodPort(token: string, done: seq<int>, port: int)
    requires AreRead(token, done) && Port(token, |done|) == Some(port)
    ensures AreRead(token, done + [port])
  {
  }

  lemma BadPort(token: string, done: seq<int>, room: nat)
    requires AreRead(token, done) && |done| < room
    requires Start(token, '.', |done|) <= |token| && Port(token, |done|).None?
    ensures Ports(token, room).None?
  {
    var m := Pieces(token, '.', room);
    var next := Port(token, m);
    assert |done| < m;
  }

  /** The cursor is at piece `n` of the token, or gone if there is none. */
  ghost predicate IsAtPiece(token: string, cursor: Option<string>, n: nat) {
    var k := Start(token, '.', n);
    if k > |token| then cursor.None? else cursor.Some? && cursor.value == token[k..]
  }

  lemma NextPiece(token: string, cursor: string, n: nat)
    requires IsAtPiece(token, Some(cursor), n)
    ensures Start(token, '.', n) <= |token|
    ensures var number := UIntOf(Until(cursor, '.'));
      Port(token, n) == if number.None? then None else Some(AsInt(number.value))
    ensures IsAtPiece(token, After(cursor, '.'), n + 1)
  {
    hide FirstOf, UIntOf;
    var k := Start(token, '.', n);
    FirstOfSuffix(token, '.', k);
    var e := FirstOf(token, '.', k);
    assert token[k..][..e - k] == token[k..e];
    if e < |token| {
      assert token[k..][e - k + 1..] == token[e + 1..];
    }
  }

  lemma FirstOfSuffix(s: string, c: char, k: nat)
    requires k <= |s|
    ensures FirstOf(s[k..], c, 0) == FirstOf(s, c, k) - k
  {
    var t, e, i := s[k..], FirstOf(s, c, k), FirstOf(s[k..], c, 0);
    assert i < |t| ==> t[i] == s[k + i];
    assert e < |s| ==> s[e] == t[e - k];
  }

  /** The bus number and the ports. */
  method ParseAddress(usbToken: string, addr: array<int>) returns (len: Option<nat>)
    requires addr.Length == MAX_EVDI_USB_ADDR
    modifies addr
    ensures len.Some? == Address(usbToken).Some?
    ensures len.Some? ==> len.value <= addr.Length && addr[..len.value] == Address(usbToken).value
  {
    hide UIntOf, Ports;
    var bus, token := Strsep(usbToken, '-');
    var number := KStrToUInt(bus);
    if number.None? {
      return None;
    }
    addr[0] := AsInt(number.value);
    if token.None? {
      return None;
    }
    len := ParsePorts(token.value, addr);
    if len.Some? {
      assert addr[..len.value] == [addr[0]] + addr[1..len.value];
    }
  }

  /** `addr` holds the parsed address up to the length returned, which is none for a bad path. */
  method ParseUsbPath(buf: string, addr: array<int>) returns (len: Option<nat>)
    requires addr.Length == MAX_EVDI_USB_ADDR
    modifies addr
    ensures len.Some? == Parse(buf).Some?
    ensures len.Some? ==> len.value <= addr.Length && addr[..len.value] == Parse(buf).value
  {
    var found := StrNStrUsb(buf);
    if found.None? {
      return None;
    }
    var tempPath := Strim(found.value);
    var busToken, rest := Strsep(tempPath, ':');
    if rest.None? {
      return None;
    }
    var usbToken, tail := Strsep(rest.value, ':');
    len := ParseAddress(usbToken, addr);
  }
}
