/** The text form of a device's path, and what attaching to it finds in the device tree. */
module UsbAttach {
  import opened Arithmetic
  import opened Wrappers
  import opened UsbPath

  // ---- The device tree ----

  /** A root hub has no port number but the number of its bus. */
  datatype Device = Device(portnum: nat, busnum: nat, parent: Option<nat>)

  /** Every device comes after its parent. */
  type Forest = f: seq<Device> | forall i :: 0 <= i < |f| && f[i].parent.Some? ==> f[i].parent.value < i

  function Number(d: Device): nat {
    if d.portnum == 0 then d.busnum else d.portnum
  }

  function PathOf(f: Forest, d: nat): (path: seq<nat>)
    requires d < |f|
    ensures path != []
  {
    if f[d].parent.None? then [Number(f[d])] else PathOf(f, f[d].parent.value) + [Number(f[d])]
  }

  /** Root hubs, and they alone, have no port number. */
  predicate HubsHaveNoPort(f: Forest) {
    forall i :: 0 <= i < |f| ==> (f[i].parent.None? <==> f[i].portnum == 0)
  }

  function Root(f: Forest, d: nat): (r: nat)
    requires d < |f|
    ensures r < |f| && f[r].parent.None?
  {
    if f[d].parent.None? then d else Root(f, f[d].parent.value)
  }

  /** A path is the number of the bus, and then a port for every device below its root hub. */
  lemma {:induction false} PathIsBusAndPorts(f: Forest, d: nat)
    requires d < |f| && HubsHaveNoPort(f)
    ensures var path := PathOf(f, d);
      && path[0] == f[Root(f, d)].busnum
      && (if f[d].parent.None? then |path| == 1
          else path[..|path| - 1] == PathOf(f, f[d].parent.value) && path[|path| - 1] == f[d].portnum)
  {
    if f[d].parent.Some? {
      PathIsBusAndPorts(f, f[d].parent.value);
      var above := PathOf(f, f[d].parent.value);
      assert PathOf(f, d)[..|above|] == above;
    }
  }

  /** Numbers fit an int; buses are distinct, and so are the ports of the devices of one parent. */
  ghost predicate WellNumbered(f: Forest) {
    && (forall i :: 0 <= i < |f| ==> Number(f[i]) < 0x8000_0000)
    && (forall i, j :: 0 <= i < |f| && 0 <= j < |f| && f[i].parent == f[j].parent && Number(f[i]) == Number(f[j]) ==>
          i == j)
  }

  /** A path names one device. */
  lemma {:induction false} PathsDistinct(f: Forest, d: nat, e: nat)
    requires d < |f| && e < |f| && WellNumbered(f) && PathOf(f, d) == PathOf(f, e)
    ensures d == e
  {
    var p, q := PathOf(f, d), PathOf(f, e);
    assert p[|p| - 1] == Number(f[d]) && q[|q| - 1] == Number(f[e]);
    if f[d].parent.Some? && f[e].parent.Some? {
      var a, b := f[d].parent.value, f[e].parent.value;
      assert p[..|p| - 1] == PathOf(f, a) && q[..|q| - 1] == PathOf(f, b);
      PathsDistinct(f, a, b);
    }
  }

  /** Whether `rest` is the path of `pdev`. */
  ghost predicate Remains(f: Forest, pdev: Option<nat>, rest: seq<int>) {
    pdev.Some? && pdev.value < |f| && PathOf(f, pdev.value) == rest
  }

  lemma WalkStep(f: Forest, d: nat, rest: seq<int>)
    requires d < |f| && rest != []
    ensures var n := |rest| - 1;
      Remains(f, Some(d), rest) <==>
        Number(f[d]) == rest[n] && if f[d].parent.None? then n == 0 else Remains(f, f[d].parent, rest[..n])
  {
  }

  /** The walk from a device to its root against the address, last number first. */
  method FindUsbDeviceAtPath(f: Forest, usb: nat, addr: seq<int>) returns (found: bool)
    requires usb < |f| && |addr| <= MAX_EVDI_USB_ADDR
    ensures found == (PathOf(f, usb) == addr)
  {
    var pdev: Option<nat> := Some(usb);
    var i := |addr| - 1;
    assert addr[..i + 1] == addr;
    while pdev.Some? && 0 <= i < MAX_EVDI_USB_ADDR
      invariant -1 <= i < |addr|
      invariant pdev.Some? ==> pdev.value < |f|
      invariant Remains(f, Some(usb), addr) == Remains(f, pdev, addr[..i + 1])
      decreases i
    {
      var d := f[pdev.value];
      var port := d.portnum;
      if port == 0 {
        port := d.busnum;
      }
      WalkStep(f, pdev.value, addr[..i + 1]);
      assert addr[..i + 1][..i] == addr[..i];
      if port != addr[i] {
        return false;
      }
      if d.parent.None? && i == 0 {
        return true;
      }
      pdev := d.parent;
      i := i - 1;
    }
    found := false;
  }

  // ---- Attaching ----

  predicate IsAt(f: Forest, d: nat, addr: seq<int>) {
    d < |f| && PathOf(f, d) == addr
  }

  /** What is found lies at the parsed address, and nothing is found only if nothing lies there. */
  ghost predicate Attaches(f: Forest, buf: string, device: Option<nat>) {
    match device
    case Some(d) => Parse(buf).Some? && IsAt(f, d, Parse(buf).value)
    case None => Parse(buf).Some? ==> forall e :: !IsAt(f, e, Parse(buf).value)
  }

  method AddDeviceWithUsbPath(f: Forest, buf: string) returns (device: Option<nat>)
    ensures Attaches(f, buf, device)
  {
    var addr := new int[MAX_EVDI_USB_ADDR](_ => 0);
    var len := ParseUsbPath(buf, addr);
    if len.None? {
      return None;
    }
    var path := addr[..len.value];
    var usb := 0;
    while usb < |f|
      invariant usb <= |f|
      invariant forall e :: 0 <= e < usb ==> !IsAt(f, e, path)
    {
      var found := FindUsbDeviceAtPath(f, usb, path);
      if found {
        return Some(usb);
      }
      usb := usb + 1;
    }
    device := None;
  }

  // ---- The text form ----

  function Digit(n: nat): char
    requires n < 10
  {
    ('0' as int + n) as char
  }

  function Decimal(n: nat): string {
    if n < 10 then [Digit(n)] else Decimal(n / 10) + [Digit(n % 10)]
  }

  function Decimals(numbers: seq<nat>): seq<string> {
    seq(|numbers|, i requires 0 <= i < |numbers| => Decimal(numbers[i]))
  }

  /** The pieces from the `k`-th on, with dots between. */
  function Dotted(pieces: seq<string>, k: nat): string
    requires k < |pieces|
    decreases |pieces| - k
  {
    if k == |pieces| - 1 then pieces[k] else pieces[k] + ['.'] + Dotted(pieces, k + 1)
  }

  function Body(path: seq<nat>): string
    requires |path| >= 2
  {
    Decimal(path[0]) + ['-'] + Dotted(Decimals(path[1..]), 0)
  }

  function Rendered(path: seq<nat>): string
    requires |path| >= 2
  {
    "usb:" + Body(path)
  }

  predicate Numeral(s: string) {
    s != [] && Digits(s, 0, |s|)
  }

  lemma {:induction false} ValueOfPrefix(s: string, t: string, j: nat)
    requires j <= |s| && j <= |t| && s[..j] == t[..j] && Digits(s, 0, j)
    ensures Digits(t, 0, j) && Value(t, 0, j) == Value(s, 0, j)
  {
    forall i | 0 <= i < j
      ensures s[i] == t[i]
    {
      assert s[..j][i] == t[..j][i];
    }
    if j > 0 {
      assert s[..j - 1] == t[..j - 1];
      ValueOfPrefix(s, t, j - 1);
    }
  }

  lemma {:induction false} DecimalReads(n: nat)
    ensures Numeral(Decimal(n)) && Value(Decimal(n), 0, |Decimal(n)|) == n
  {
    if n >= 10 {
      var stem, s := Decimal(n / 10), Decimal(n);
      DecimalReads(n / 10);
      assert s[..|stem|] == stem == stem[..|stem|];
      ValueOfPrefix(stem, s, |stem|);
    }
  }

  lemma NumberReads(n: nat)
    requires n < TWO_TO_32
    ensures UIntOf(Decimal(n)) == Some(n)
  {
    DecimalReads(n);
  }

  lemma TokenIsAll(a: string, c: char)
    requires c !in a
    ensures Until(a, c) == a && After(a, c).None?
  {
    assert FirstOf(a, c, 0) == |a|;
  }

  predicate Numerals(pieces: seq<string>) {
    forall i :: 0 <= i < |pieces| ==> Numeral(pieces[i])
  }

  lemma DecimalsAreNumerals(numbers: seq<nat>)
    ensures Numerals(Decimals(numbers))
  {
    forall i | 0 <= i < |numbers|
      ensures Numeral(Decimals(numbers)[i])
    {
      DecimalReads(numbers[i]);
    }
  }

  predicate NumberChar(c: char) {
    '0' <= c <= '9' || c == '.'
  }

  lemma {:induction false} DottedChars(pieces: seq<string>, k: nat)
    requires k < |pieces| && Numerals(pieces)
    ensures var s := Dotted(pieces, k); s != [] && forall i :: 0 <= i < |s| ==> NumberChar(s[i])
    decreases |pieces| - k
  {
    if k < |pieces| - 1 {
      DottedChars(pieces, k + 1);
    }
  }

  lemma PieceEnds(s: string, k: nat, head: string, rest: string)
    requires k <= |s| && s[k..] == head + ['.'] + rest && Numeral(head)
    ensures var e := FirstOf(s, '.', k); e < |s| && s[k..e] == head && s[e + 1..] == rest
  {
    FirstOfSuffix(s, '.', k);
    CutAt(head + ['.'] + rest, '.', head, rest);
    var e := FirstOf(s, '.', k);
    assert s[k..][..e - k] == s[k..e] && s[k..][e - k + 1..] == s[e + 1..];
  }

  lemma LastPieceEnds(s: string, k: nat, head: string)
    requires k <= |s| && s[k..] == head && Numeral(head)
    ensures FirstOf(s, '.', k) == |s| && s[k..|s|] == head
  {
    FirstOfSuffix(s, '.', k);
    TokenIsAll(head, '.');
  }

  /** What is left from the start of piece `k` on. */
  lemma {:induction false} StartReads(pieces: seq<string>, s: string, k: nat)
    requires k < |pieces| && Numerals(pieces) && s == Dotted(pieces, 0)
    ensures Start(s, '.', k) <= |s| && s[Start(s, '.', k)..] == Dotted(pieces, k)
  {
    if k > 0 {
      StartReads(pieces, s, k - 1);
      PieceEnds(s, Start(s, '.', k - 1), pieces[k - 1], Dotted(pieces, k));
    }
  }

  lemma PieceReads(pieces: seq<string>, s: string, k: nat)
    requires k < |pieces| && Numerals(pieces) && s == Dotted(pieces, 0)
    ensures Start(s, '.', k) <= |s| && Piece(s, '.', k) == pieces[k]
    ensures k == |pieces| - 1 ==> Start(s, '.', k + 1) > |s|
  {
    StartReads(pieces, s, k);
    if k == |pieces| - 1 {
      LastPieceEnds(s, Start(s, '.', k), pieces[k]);
    } else {
      PieceEnds(s, Start(s, '.', k), pieces[k], Dotted(pieces, k + 1));
    }
  }

  function First(s: seq<nat>, room: nat): seq<nat> {
    if |s| <= room then s else s[..room]
  }

  /** Reading the pieces gives the numbers back, as many as there is room for. */
  lemma PortsRead(ports: seq<nat>, room: nat)
    requires ports != [] && forall i :: 0 <= i < |ports| ==> ports[i] < 0x8000_0000
    ensures var r := Ports(Dotted(Decimals(ports), 0), room); r.Some? && r.value == First(ports, room)
  {
    hide UIntOf, Piece, Ports, Start;
    var pieces, s := Decimals(ports), Dotted(Decimals(ports), 0);
    DecimalsAreNumerals(ports);
    forall k | 0 <= k < |ports|
      ensures Port(s, k) == Some(ports[k])
    {
      PieceReads(pieces, s, k);
      NumberReads(ports[k]);
    }
    PieceReads(pieces, s, |pieces| - 1);
    PortsAre(s, First(ports, room), room);
  }

  lemma AddressIs(token: string, ports: string)
    requires UIntOf(Until(token, '-')).Some? && After(token, '-').Some? && After(token, '-').value == ports
    requires Ports(ports, MAX_EVDI_USB_ADDR - 1).Some?
    ensures var r := Address(token);
      r.Some? && r.value == [AsInt(UIntOf(Until(token, '-')).value)] + Ports(ports, MAX_EVDI_USB_ADDR - 1).value
  {
  }

  lemma AddressReads(path: seq<nat>)
    requires |path| >= 2 && forall i :: 0 <= i < |path| ==> path[i] < 0x8000_0000
    ensures var r := Address(Body(path)); r.Some? && r.value == First(path, MAX_EVDI_USB_ADDR)
  {
    hide UIntOf, Ports, FirstOf;
    DecimalReads(path[0]);
    NumberReads(path[0]);
    CutAt(Body(path), '-', Decimal(path[0]), Dotted(Decimals(path[1..]), 0));
    PortsRead(path[1..], MAX_EVDI_USB_ADDR - 1);
    AddressIs(Body(path), Dotted(Decimals(path[1..]), 0));
    assert [path[0]] + First(path[1..], MAX_EVDI_USB_ADDR - 1) == First(path, MAX_EVDI_USB_ADDR);
  }

  // ---- What may follow the path ----

  /** White space, or a colon and anything. */
  predicate Tail(tail: string) {
    tail != [] && tail[0] != ':' ==> forall i :: 0 <= i < |tail| ==> IsSpace(tail[i])
  }

  lemma {:induction false} TrimmedKeeps(s: string, tail: string)
    requires s != [] && !IsSpace(s[|s| - 1])
    ensures Trimmed(s + tail) == s + Trimmed(tail)
    decreases |tail|
  {
    if tail == [] {
      assert s + tail == s;
    } else {
      var t := s + tail;
      assert t[|t| - 1] == tail[|tail| - 1] && t[..|t| - 1] == s + tail[..|tail| - 1];
      TrimmedKeeps(s, tail[..|tail| - 1]);
    }
  }

  lemma {:induction false} TrimmedTail(tail: string)
    requires Tail(tail)
    ensures Trimmed(tail) == [] || Trimmed(tail)[0] == ':'
    decreases |tail|
  {
    if tail != [] && IsSpace(tail[|tail| - 1]) {
      if |tail| > 1 {
        assert tail[..|tail| - 1][0] == tail[0];
        assert Tail(tail[..|tail| - 1]);
        TrimmedTail(tail[..|tail| - 1]);
      }
    }
  }

  lemma BodyChars(path: seq<nat>)
    requires |path| >= 2
    ensures var b := Body(path); b != [] && ':' !in b && !IsSpace(b[|b| - 1])
  {
    DecimalReads(path[0]);
    DecimalsAreNumerals(path[1..]);
    DottedChars(Decimals(path[1..]), 0);
    var b, j := Body(path), Dotted(Decimals(path[1..]), 0);
    assert b[|b| - 1] == j[|j| - 1];
  }

  /** What is left of the text after finding "usb:", trimming, and cutting at colons. */
  lemma CutsOut(b: string, tail: string)
    requires b != [] && ':' !in b && !IsSpace(b[|b| - 1]) && Tail(tail)
    ensures var rest := After(Trimmed("usb:" + b + tail), ':');
      rest.Some? && Until(rest.value, ':') == b
  {
    TrimmedTail(tail);
    TrimmedAfter("usb:", b, tail);
    AfterUsb(b + Trimmed(tail));
    BodyEnds(b, Trimmed(tail));
  }

  lemma TrimmedAfter(stem: string, b: string, tail: string)
    requires b != [] && !IsSpace(b[|b| - 1])
    ensures Trimmed(stem + b + tail) == stem + (b + Trimmed(tail))
  {
    var s := stem + b;
    assert s[|s| - 1] == b[|b| - 1];
    TrimmedKeeps(s, tail);
    assert s + Trimmed(tail) == stem + (b + Trimmed(tail));
  }

  lemma AfterUsb(rest: string)
    ensures var r := After("usb:" + rest, ':'); r.Some? && r.value == rest
  {
    assert "usb:" + rest == "usb" + [':'] + rest;
    CutAt("usb" + [':'] + rest, ':', "usb", rest);
  }

  lemma BodyEnds(b: string, rest: string)
    requires ':' !in b && (rest == [] || rest[0] == ':')
    ensures Until(b + rest, ':') == b
  {
    if rest == [] {
      assert b + rest == b;
      TokenIsAll(b, ':');
    } else {
      assert b + rest == b + [':'] + rest[1..];
      CutAt(b + [':'] + rest[1..], ':', b, rest[1..]);
    }
  }

  /** Parsing the text form gives the path back, up to the ten numbers there is room for. */
  lemma ParseReads(path: seq<nat>, tail: string)
    requires |path| >= 2 && Tail(tail) && forall i :: 0 <= i < |path| ==> path[i] < 0x8000_0000
    ensures var r := Parse(Rendered(path) + tail); r.Some? && r.value == First(path, MAX_EVDI_USB_ADDR)
  {
    BodyChars(path);
    AddressReads(path);
    TextReads(Body(path), tail);
  }

  lemma TextReads(b: string, tail: string)
    requires b != [] && ':' !in b && !IsSpace(b[|b| - 1]) && Tail(tail)
    ensures Parse("usb:" + b + tail) == Address(b)
  {
    CutsOut(b, tail);
    StartsWithUsb("usb:" + b + tail);
  }

  lemma StartsWithUsb(s: string)
    requires |s| >= 4 && s[..4] == "usb:"
    ensures FromUsb(s) == Some(s)
  {
  }

  lemma {:induction false} PathNumbers(f: Forest, d: nat)
    requires d < |f| && WellNumbered(f)
    ensures forall i :: 0 <= i < |PathOf(f, d)| ==> PathOf(f, d)[i] < 0x8000_0000
  {
    if f[d].parent.Some? {
      PathNumbers(f, f[d].parent.value);
    }
  }

  /** The device, or the ancestor of it whose path has `depth` numbers. */
  function Ancestor(f: Forest, d: nat, depth: nat): nat
    requires d < |f|
  {
    if |PathOf(f, d)| <= depth || f[d].parent.None? then d else Ancestor(f, f[d].parent.value, depth)
  }

  lemma {:induction false} AncestorPath(f: Forest, d: nat, depth: nat)
    requires d < |f| && depth > 0
    ensures var e := Ancestor(f, d, depth); e < |f| && PathOf(f, e) == First(PathOf(f, d), depth)
  {
    var path := PathOf(f, d);
    if |path| > depth {
      var above := PathOf(f, f[d].parent.value);
      AncestorPath(f, f[d].parent.value, depth);
      assert above == path[..|path| - 1];
      assert First(above, depth) == First(path, depth);
    }
  }

  /** Attaching to the text form of a device's path finds that device, and no other, exactly when its
      path has at most ten numbers: nine ports. A deeper one is taken for the ancestor that its first
      ten numbers name. */
  lemma AttachFindsIff(f: Forest, d: nat, tail: string, device: Option<nat>)
    requires d < |f| && WellNumbered(f) && |PathOf(f, d)| >= 2 && Tail(tail)
    requires Attaches(f, Rendered(PathOf(f, d)) + tail, device)
    ensures device == Some(Ancestor(f, d, MAX_EVDI_USB_ADDR))
    ensures device == Some(d) <==> |PathOf(f, d)| <= MAX_EVDI_USB_ADDR
  {
    var e := Ancestor(f, d, MAX_EVDI_USB_ADDR);
    PathNumbers(f, d);
    ParseReads(PathOf(f, d), tail);
    AncestorPath(f, d, MAX_EVDI_USB_ADDR);
    assert IsAt(f, e, PathOf(f, e));
    assert device.Some?;
    PathsDistinct(f, device.value, e);
  }
}
