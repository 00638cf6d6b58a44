/** The DHCP message codec: a parser over arbitrary bytes and a builder for replies
    (RFC 2131 section 2, RFC 2132 sections 2, 3.1 and 3.2). */
module DhcpPacket {
  import opened Sequences
  import opened Text
  import opened Decimal

  const OPT_MESSAGE_TYPE: byte := 53
  const OPT_SERVER_ID: byte := 54
  const OPT_VENDOR_CLASS: byte := 60
  const OPT_TFTP_SERVER: byte := 66
  const OPT_BOOT_FILE: byte := 67
  const OPT_END: byte := 255
  const COOKIE: seq<byte> := [0x63, 0x82, 0x53, 0x63]
  const PXE_CLIENT: seq<byte> := [80, 88, 69, 67, 108, 105, 101, 110, 116]
  const HEADER := 240
  const FIXED := 300

  type OptionMap = map<byte, seq<byte>>

  /** `xid` and `flags` are kept as their big-endian bytes. */
  datatype Message = Message(
    op: byte, htype: byte, hlen: byte, xid: seq<byte>, flags: seq<byte>,
    giaddr: seq<byte>, chaddr: seq<byte>, options: OptionMap)

  // ----- Parsing -----

  /** The option area from its first byte, on top of the options already read. */
  function ReadOptions(t: seq<byte>, m: OptionMap): OptionMap {
    if t == [] then m
    else if t[0] == 0 then ReadOptions(t[1..], m)
    else if t[0] == OPT_END || |t| < 2 || 2 + t[1] > |t| then m
    else ReadOptions(t[2 + t[1]..], m[t[0] := t[2..2 + t[1]]])
  }

  function Header(b: seq<byte>, options: OptionMap): Message
    requires |b| >= HEADER
  {
    Message(b[0], b[1], b[2], b[4..8], b[10..12], b[24..28], b[28..44], options)
  }

  predicate HasCookie(b: seq<byte>) {
    |b| >= HEADER && b[236..240] == COOKIE
  }

  /** None stands for the two errors: a packet that is too short or lacks the cookie. */
  method Parse(b: seq<byte>) returns (r: Option<Message>)
    ensures r == Parsed(b)
  {
    if |b| < HEADER {
      return None;
    }
    if b[236..240] != COOKIE {
      return None;
    }
    var options: OptionMap := map[];
    var i := HEADER;
    while i < |b|
      invariant HEADER <= i <= |b|
      invariant ReadOptions(b[i..], options) == ReadOptions(b[HEADER..], map[])
      decreases |b| - i
    {
      var c := b[i];
      if c == 0 {
        assert b[i..][1..] == b[i + 1..];
        i := i + 1;
        continue;
      }
      if c == OPT_END || i + 1 >= |b| {
        break;
      }
      var l := b[i + 1];
      if i + 2 + l > |b| {
        break;
      }
      assert b[i..][2..2 + l] == b[i + 2..i + 2 + l] && b[i..][2 + l..] == b[i + 2 + l..];
      options := options[c := b[i + 2..i + 2 + l]];
      i := i + 2 + l;
    }
    return Some(Header(b, options));
  }

  function Parsed(b: seq<byte>): Option<Message> {
    if HasCookie(b) then Some(Header(b, ReadOptions(b[HEADER..], map[]))) else None
  }

  // ----- What the parser reads, for every byte string -----

  datatype Item = Pad | Opt(code: byte, data: seq<byte>)

  predicate Fits(x: Item) {
    x.Opt? ==> x.code != 0 && x.code != 255 && |x.data| < 256
  }

  ghost predicate Encodable(items: seq<Item>) {
    forall k :: 0 <= k < |items| ==> Fits(items[k])
  }

  function EncodeItem(x: Item): seq<byte>
    requires Fits(x)
  {
    match x case Pad => [0] case Opt(c, d) => [c, |d|] + d
  }

  function Encode(items: seq<Item>): seq<byte>
    requires Encodable(items)
  {
    if items == [] then [] else EncodeItem(items[0]) + Encode(items[1..])
  }

  function Update(x: Item, m: OptionMap): OptionMap {
    match x case Pad => m case Opt(c, d) => m[c := d]
  }

  /** Left to right; the last of several options with one code wins. */
  function Collect(items: seq<Item>, m: OptionMap): OptionMap {
    if items == [] then m else Collect(items[1..], Update(items[0], m))
  }

  /** Nothing more is read from here on: the end option, or an option cut off by the end. */
  predicate Stops(t: seq<byte>) {
    t == [] || t[0] == 255 || (t[0] != 0 && (|t| < 2 || 2 + t[1] > |t|))
  }

  /** Any options, interleaved with padding in any way and followed by something that stops
      the reader, are read as their left-to-right map update. */
  lemma {:induction false} OptionsReadBack(items: seq<Item>, rest: seq<byte>, m: OptionMap)
    requires Encodable(items) && Stops(rest)
    ensures ReadOptions(Encode(items) + rest, m) == Collect(items, m)
  {
    if items == [] {
      assert Encode(items) + rest == rest;
    } else {
      OneItem(items[0], Encode(items[1..]) + rest, m);
      OptionsReadBack(items[1..], rest, Update(items[0], m));
      ConcatAssoc(EncodeItem(items[0]), Encode(items[1..]), rest);
    }
  }

  lemma OneItem(x: Item, t: seq<byte>, m: OptionMap)
    requires Fits(x)
    ensures ReadOptions(EncodeItem(x) + t, m) == ReadOptions(t, Update(x, m))
  {
    var s := EncodeItem(x) + t;
    if x.Opt? {
      assert s[2..2 + |x.data|] == x.data && s[2 + |x.data|..] == t;
    } else {
      assert s[1..] == t;
    }
  }

  /** Every byte string is such an item list, so the previous law describes all inputs. */
  lemma {:induction false} EveryAreaIsItems(t: seq<byte>) returns (items: seq<Item>, rest: seq<byte>)
    ensures Encodable(items) && Stops(rest) && t == Encode(items) + rest
    decreases |t|
  {
    if Stops(t) {
      items, rest := [], t;
    } else {
      var first := if t[0] == 0 then Pad else Opt(t[0], t[2..2 + t[1]]);
      var tail := if t[0] == 0 then t[1..] else t[2 + t[1]..];
      assert t == EncodeItem(first) + tail;
      items, rest := EveryAreaIsItems(tail);
      ConcatAssoc(EncodeItem(first), Encode(items), rest);
      assert ([first] + items)[1..] == items;
      items := [first] + items;
    }
  }

  // ----- Building -----

  /** A reply. `server` is the IPv4 address of the server, absent when the configured address
      is not IPv4; None when the boot file does not fit the buffer, where the program panics. */
  method Build(req: Message, server: Option<seq<byte>>, bootfile: seq<byte>, msgType: byte)
    returns (r: Option<seq<byte>>)
    requires |req.xid| == 4 && |req.flags| == 2 && |req.giaddr| == 4 && |req.chaddr| == 16
    requires server.Some? ==> |server.value| == 4
    ensures r == Built(req, server, bootfile, msgType)
  {
    if 108 + |bootfile| > FIXED {
      return None;
    }
    var head := FillHeader(req, server, bootfile);
    var o := ListOptions(server, bootfile, msgType);
    return Some(head + o); // never shorter than 300 bytes, so nothing is padded at the end
  }

  method ListOptions(server: Option<seq<byte>>, bootfile: seq<byte>, msgType: byte) returns (o: seq<byte>)
    requires server.Some? ==> |server.value| == 4
    ensures o == Trailer(server, bootfile, msgType)
  {
    o := [OPT_MESSAGE_TYPE, 1, msgType];
    o := o + [OPT_SERVER_ID, 4];
    o := o + AddressBytes(server);
    o := o + [OPT_VENDOR_CLASS, |PXE_CLIENT|];
    o := o + PXE_CLIENT;
    var sip := AddressText(server);
    o := o + [OPT_TFTP_SERVER, |sip| % 256];
    o := o + sip;
    o := o + [OPT_BOOT_FILE, |bootfile| % 256];
    o := o + bootfile;
    o := o + [OPT_END];
  }

  method FillHeader(req: Message, server: Option<seq<byte>>, bootfile: seq<byte>) returns (head: seq<byte>)
    requires |req.xid| == 4 && |req.flags| == 2 && |req.giaddr| == 4 && |req.chaddr| == 16
    requires server.Some? ==> |server.value| == 4
    requires 108 + |bootfile| <= FIXED
    ensures head == Filled(req, server, bootfile)
  {
    var buf := new byte[FIXED](_ => 0);
    assert buf[..] == Zeros(FIXED);
    buf[0] := 2;
    buf[1] := req.htype;
    buf[2] := req.hlen;
    assert buf[..] == Zeros(FIXED)[0 := 2][1 := req.htype][2 := req.hlen];
    Copy(buf, 4, req.xid);
    Copy(buf, 10, req.flags);
    Copy(buf, 20, AddressBytes(server));
    Copy(buf, 24, req.giaddr);
    Copy(buf, 28, req.chaddr);
    Copy(buf, 108, bootfile);
    Copy(buf, 236, COOKIE);
    head := buf[..];
  }

  method Copy(buf: array<byte>, at: nat, s: seq<byte>)
    requires at + |s| <= buf.Length
    modifies buf
    ensures buf[..] == Put(old(buf[..]), at, s)
  {
    forall i | 0 <= i < |s| {
      buf[at + i] := s[i];
    }
  }

  function Put(b: seq<byte>, at: nat, s: seq<byte>): (r: seq<byte>)
    requires at + |s| <= |b|
    ensures |r| == |b| && r[at..at + |s|] == s
    ensures forall i :: 0 <= i < at || at + |s| <= i < |b| ==> r[i] == b[i]
  {
    b[..at] + s + b[at + |s|..]
  }

  function AddressBytes(server: Option<seq<byte>>): seq<byte> {
    if server.Some? then server.value else []
  }

  /** net.IP.String: dotted decimal, or <nil> for an absent address. */
  function AddressText(server: Option<seq<byte>>): (t: seq<byte>)
    requires server.Some? ==> |server.value| == 4
  {
    if server.None? then [60, 110, 105, 108, 62]
    else
      var a := server.value;
      Digits(a[0]) + [46] + Digits(a[1]) + [46] + Digits(a[2]) + [46] + Digits(a[3])
  }

  lemma AddressTextLength(server: Option<seq<byte>>)
    requires server.Some? ==> |server.value| == 4
    ensures |AddressText(server)| <= 15
  {
    if server.Some? {
      assert Pow10(3) == 1000;
      forall i | 0 <= i < 4 ensures |Digits(server.value[i])| <= 3 {
        DigitCount(server.value[i], 3);
      }
    }
  }

  /** An address reads as its four bytes: between the dots stand their decimal numbers. */
  lemma AddressReads(a: seq<byte>)
    requires |a| == 4
    ensures var parts := Split(AddressText(Some(a)), 46);
            |parts| == 4 && forall k :: 0 <= k < 4 ==> AllDigits(parts[k]) && Value(parts[k]) == a[k]
    ensures AddressText(None) == Ascii("<nil>")
  {
    forall k | 0 <= k < 4 ensures AllDigits(Digits(a[k])) && Value(Digits(a[k])) == a[k] {
      ValueOfDigits(a[k]);
    }
    DottedParts(Digits(a[0]), Digits(a[1]), Digits(a[2]), Digits(a[3]));
  }

  lemma DottedParts(p: seq<byte>, q: seq<byte>, r: seq<byte>, t: seq<byte>)
    requires AllDigits(p) && AllDigits(q) && AllDigits(r) && AllDigits(t)
    ensures Split(p + [46] + q + [46] + r + [46] + t, 46) == [p, q, r, t]
  {
    var parts := [p, q, r, t];
    assert Free(parts, 46);
    Dotted(p, q, r, t);
    SplitOfJoin(parts, 46);
  }

  lemma Dotted(p: seq<byte>, q: seq<byte>, r: seq<byte>, t: seq<byte>)
    ensures Join([p, q, r, t], 46) == p + [46] + q + [46] + r + [46] + t
  {
    assert [p, q, r, t][1..] == [q, r, t] && [q, r, t][1..] == [r, t] && [r, t][1..] == [t];
    assert Join([r, t], 46) == r + [46] + Join([t], 46) == r + [46] + t;
    assert Join([q, r, t], 46) == q + [46] + (r + [46] + t);
  }

  function Filled(req: Message, server: Option<seq<byte>>, bootfile: seq<byte>): (b: seq<byte>)
    requires |req.xid| == 4 && |req.flags| == 2 && |req.giaddr| == 4 && |req.chaddr| == 16
    requires server.Some? ==> |server.value| == 4
    requires 108 + |bootfile| <= FIXED
    ensures |b| == FIXED
  {
    var b0 := Zeros(FIXED)[0 := 2][1 := req.htype][2 := req.hlen];
    var b1 := Put(Put(Put(b0, 4, req.xid), 10, req.flags), 20, AddressBytes(server));
    Put(Put(Put(Put(b1, 24, req.giaddr), 28, req.chaddr), 108, bootfile), 236, COOKIE)
  }

  function Trailer(server: Option<seq<byte>>, bootfile: seq<byte>, msgType: byte): seq<byte>
    requires server.Some? ==> |server.value| == 4
  {
    [OPT_MESSAGE_TYPE, 1, msgType] + [OPT_SERVER_ID, 4] + AddressBytes(server)
    + [OPT_VENDOR_CLASS, |PXE_CLIENT|] + PXE_CLIENT
    + [OPT_TFTP_SERVER, |AddressText(server)| % 256] + AddressText(server)
    + [OPT_BOOT_FILE, |bootfile| % 256] + bootfile + [OPT_END]
  }

  function Built(req: Message, server: Option<seq<byte>>, bootfile: seq<byte>, msgType: byte): Option<seq<byte>>
    requires |req.xid| == 4 && |req.flags| == 2 && |req.giaddr| == 4 && |req.chaddr| == 16
    requires server.Some? ==> |server.value| == 4
  {
    if 108 + |bootfile| > FIXED then None
    else Some(Filled(req, server, bootfile) + Trailer(server, bootfile, msgType))
  }
}
