/** Which requests the ProxyDHCP server answers, and with what (RFC 2132 sections 9.6 and 9.13,
    RFC 4578 section 2.1). */
module DhcpReply {
  import opened Sequences
  import opened Text
  import opened Decimal
  import opened DhcpPacket
  import opened DhcpRoundTrip

  const OPT_USER_CLASS: byte := 77
  const OPT_CLIENT_ARCH: byte := 93
  const DISCOVER: byte := 1
  const OFFER: byte := 2
  const REQUEST: byte := 3
  const ACK: byte := 5
  const ARCH_UEFI_X86 := 6
  const ARCH_UEFI_X64 := 7
  const ARCH_UEFI_BC := 9
  const ARCH_UEFI_ARM64 := 11
  const PROXY_PORT := 4011
  const ITOA_WIDTH := 12
  const ITOA_LIMIT := 1_000_000_000_000 // ten to the power of the buffer's width

  /** The server's side of the exchange: the listening interface, if one is configured, with its
      subnet test; the server address, absent when not IPv4; and the HTTP port. */
  datatype Setup = Setup(onLink: Option<seq<byte> -> bool>, address: Option<seq<byte>>, httpPort: int) {
    predicate Valid() {
      address.Some? ==> |address.value| == 4
    }
  }

  datatype Destination = BroadcastTo68 | UnicastTo4011

  datatype Response = Silent | Answer(packet: seq<byte>, destination: Destination) | Crash

  function Get(m: OptionMap, c: byte): seq<byte> {
    if c in m then m[c] else []
  }

  function BootFile(arch: int, isIpxe: bool, httpUrl: seq<byte>): seq<byte> {
    if isIpxe then httpUrl + Ascii("/boot.ipxe")
    else if arch == ARCH_UEFI_X64 || arch == ARCH_UEFI_BC then Ascii("ipxe.efi")
    else if arch == ARCH_UEFI_X86 then Ascii("ipxe32.efi")
    else if arch == ARCH_UEFI_ARM64 then Ascii("ipxe.efi")
    else Ascii("undionly.kpxe")
  }

  function PortText(port: int): seq<byte> {
    if port < 0 then [] else Digits(port)
  }

  function HttpUrl(setup: Setup): seq<byte>
    requires setup.Valid()
  {
    Ascii("http://") + AddressText(setup.address) + Ascii(":") + PortText(setup.httpPort)
  }

  function MessageType(m: Message): byte {
    var v := Get(m.options, OPT_MESSAGE_TYPE);
    if |v| == 1 then v[0] else 0
  }

  function Arch(m: Message): int {
    var v := Get(m.options, OPT_CLIENT_ARCH);
    if |v| == 2 then Be16(v[0], v[1]) else 0
  }

  function BootFileFor(m: Message, setup: Setup): seq<byte>
    requires setup.Valid()
  {
    BootFile(Arch(m), Contains(Get(m.options, OPT_USER_CLASS), Ascii("iPXE")), HttpUrl(setup))
  }

  function ReplyType(m: Message): byte {
    if MessageType(m) == REQUEST then ACK else OFFER
  }

  /** The requests that deserve an answer. */
  predicate Answerable(m: Message, setup: Setup) {
    && m.op == 1
    && PXE_CLIENT <= Get(m.options, OPT_VENDOR_CLASS)
    && (MessageType(m) == DISCOVER || MessageType(m) == REQUEST)
    && (setup.onLink.Some? ==> m.giaddr == Zeros(4) || setup.onLink.value(m.giaddr))
  }

  method Handle(pkt: seq<byte>, setup: Setup, fromPort: nat) returns (r: Response)
    requires setup.Valid()
    ensures r.Silent? <==> Parsed(pkt).None? || !Answerable(Parsed(pkt).value, setup)
    ensures !r.Silent? ==>
              var m := Parsed(pkt).value;
              var b := Built(m, setup.address, BootFileFor(m, setup), ReplyType(m));
              if setup.httpPort < ITOA_LIMIT && b.Some?
              then r == Answer(b.value, if fromPort == 4011 then UnicastTo4011 else BroadcastTo68)
              else r.Crash?
  {
    var parsed := Parse(pkt);
    if parsed.None? || parsed.value.op != 1 {
      return Silent;
    }
    var m := parsed.value;
    if !(PXE_CLIENT <= Get(m.options, OPT_VENDOR_CLASS)) {
      return Silent;
    }
    var mt: byte := 0;
    var v := Get(m.options, OPT_MESSAGE_TYPE);
    if |v| == 1 {
      mt := v[0];
    }
    if mt != DISCOVER && mt != REQUEST {
      return Silent;
    }
    if setup.onLink.Some? {
      if m.giaddr != Zeros(4) && !setup.onLink.value(m.giaddr) {
        return Silent;
      }
    }
    var bf := ChooseBootFile(m, setup);
    if bf.None? {
      return Crash;
    }
    var rt := OFFER;
    if mt == REQUEST {
      rt := ACK;
    }
    var reply := Build(m, setup.address, bf.value, rt);
    if reply.None? {
      return Crash;
    }
    var dst := BroadcastTo68;
    if fromPort == PROXY_PORT {
      dst := UnicastTo4011;
    }
    return Answer(reply.value, dst);
  }

  method ChooseBootFile(m: Message, setup: Setup) returns (bf: Option<seq<byte>>)
    requires setup.Valid()
    ensures bf == if setup.httpPort < ITOA_LIMIT then Some(BootFileFor(m, setup)) else None
  {
    var arch := 0;
    var v := Get(m.options, OPT_CLIENT_ARCH);
    if |v| == 2 {
      arch := Be16(v[0], v[1]);
    }
    var isIpxe := Index(Get(m.options, OPT_USER_CLASS), Ascii("iPXE")) >= 0;
    IndexFinds(Get(m.options, OPT_USER_CLASS), Ascii("iPXE"));
    var port := FormatInto(setup.httpPort, ITOA_WIDTH);
    Limit();
    if port.None? {
      return None;
    }
    return Some(BootFile(arch, isIpxe, Ascii("http://") + AddressText(setup.address) + Ascii(":") + port.value));
  }

  lemma Limit()
    ensures Pow10(ITOA_WIDTH) == ITOA_LIMIT
  {
    assert Pow10(6) == 1_000_000;
  }

  lemma IndexFinds(s: seq<byte>, p: seq<byte>)
    ensures Index(s, p) >= 0 <==> Contains(s, p)
  {
    if Index(s, p) >= 0 {
      assert At(s, Index(s, p), p);
    }
  }

  /** Port numbers need at most five digits, so every boot file name fits its 128-byte field. */
  lemma BootFilesFit(m: Message, setup: Setup)
    requires setup.Valid() && 0 <= setup.httpPort <= 65535
    ensures Value(PortText(setup.httpPort)) == setup.httpPort
    ensures |BootFileFor(m, setup)| <= 38
  {
    assert Pow10(5) == 100000;
    DigitCount(setup.httpPort, 5);
    ValueOfDigits(setup.httpPort);
    AddressTextLength(setup.address);
  }

  /** What a client reads in an answer: its own identifiers, OFFER to a discover and ACK to a
      request, and the boot file for its architecture, exactly when the server has an IPv4
      address; otherwise the server name and boot file are lost. */
  lemma ClientReads(pkt: seq<byte>, setup: Setup)
    requires setup.Valid() && 0 <= setup.httpPort <= 65535
    requires Parsed(pkt).Some? && Answerable(Parsed(pkt).value, setup)
    ensures var m := Parsed(pkt).value;
            var b := Built(m, setup.address, BootFileFor(m, setup), ReplyType(m));
            && b.Some?
            && Parsed(b.value) == Some(Reply(m,
                 if setup.address.Some? then ReplyOptions(setup.address.value, BootFileFor(m, setup), ReplyType(m))
                 else SwallowedOptions(ReplyType(m))))
            && (setup.address.Some? <==> OPT_BOOT_FILE in Parsed(b.value).value.options)
            && (MessageType(m) == DISCOVER ==> Parsed(b.value).value.options[OPT_MESSAGE_TYPE] == [OFFER])
            && (MessageType(m) == REQUEST ==> Parsed(b.value).value.options[OPT_MESSAGE_TYPE] == [ACK])
  {
    var m := Parsed(pkt).value;
    BootFilesFit(m, setup);
    if setup.address.Some? {
      ReplyReadsBack(m, setup.address.value, BootFileFor(m, setup), ReplyType(m));
    } else {
      ReplyWithoutAddress(m, BootFileFor(m, setup), ReplyType(m));
    }
  }

  /** Two servers never answer each other: no reply is itself a request that gets an answer. */
  lemma RepliesAreNotAnswered(req: Message, server: Option<seq<byte>>, bootfile: seq<byte>, msgType: byte,
                              other: Setup)
    requires Request(req) && (server.Some? ==> |server.value| == 4)
    requires Built(req, server, bootfile, msgType).Some?
    ensures var m := Parsed(Built(req, server, bootfile, msgType).value);
            m.Some? && !Answerable(m.value, other)
  {
    var h, t := Filled(req, server, bootfile), Trailer(server, bootfile, msgType);
    FilledFields(req, server, bootfile);
    HeadSurvives(h, t);
    assert (h + t)[0] == h[0];
  }

  // ----- Requests and replies, option by option -----

  /** What the last option with this code says; the empty text if there is none. */
  function LastSaid(items: seq<Item>, c: byte): seq<byte> {
    if items == [] then []
    else
      var x := items[|items| - 1];
      if x.Opt? && x.code == c then x.data else LastSaid(items[..|items| - 1], c)
  }

  lemma {:induction false} LastIsRead(items: seq<Item>, c: byte)
    ensures Get(Collect(items, map[]), c) == LastSaid(items, c)
  {
    if items != [] {
      var n := |items| - 1;
      LastIsRead(items[..n], c);
      assert items == items[..n] + [items[n]];
      CollectConcat(items[..n], [items[n]], map[]);
      CollectOne(items[n], Collect(items[..n], map[]));
    }
  }

  lemma CollectOne(x: Item, m: OptionMap)
    ensures Collect([x], m) == Update(x, m)
  {
    assert [x][1..] == [];
  }

  lemma SaidType(v: seq<byte>, m: Message)
    requires v == Get(m.options, 53)
    ensures v in {[1], [3]} <==> MessageType(m) == DISCOVER || MessageType(m) == REQUEST
    ensures v == [3] <==> MessageType(m) == REQUEST
  {
    if |v| == 1 {
      assert v == [v[0]];
    }
  }

  /** PXE requests, of type 1 or 3, from a machine or relay on the server's own network. */
  predicate Deserving(op: byte, vendor: seq<byte>, kind: seq<byte>, relay: seq<byte>, setup: Setup) {
    && op == 1
    && Ascii("PXEClient") <= vendor
    && kind in {[1], [3]}
    && (setup.onLink.None? || relay == [0, 0, 0, 0] || setup.onLink.value(relay))
  }

  lemma AnswerableIsDeserving(m: Message, setup: Setup)
    ensures Answerable(m, setup) <==>
              Deserving(m.op, Get(m.options, 60), Get(m.options, 53), m.giaddr, setup)
  {
    SaidType(Get(m.options, 53), m);
    assert Ascii("PXEClient") == PXE_CLIENT;
    assert Zeros(4) == [0, 0, 0, 0];
  }

  lemma ParsedFields(head: seq<byte>, items: seq<Item>, rest: seq<byte>)
    requires |head| == 240 && Encodable(items) && Stops(rest)
    ensures var m := Parsed(head + (Encode(items) + rest));
            && (m.Some? <==> head[236..240] == [99, 130, 83, 99])
            && (m.Some? ==> m.value.op == head[0] && m.value.giaddr == head[24..28]
                            && m.value.options == Collect(items, map[]))
  {
    var tail := Encode(items) + rest;
    var b := head + tail;
    assert b[236..240] == head[236..240] && b[24..28] == head[24..28] && b[HEADER..] == tail && b[0] == head[0];
    OptionsReadBack(items, rest, map[]);
  }

  /** Which packets are answered, read off their bytes; options count in their last version. */
  lemma AnsweredExactly(head: seq<byte>, items: seq<Item>, rest: seq<byte>, setup: Setup)
    requires |head| == 240 && Encodable(items) && Stops(rest)
    ensures var m := Parsed(head + (Encode(items) + rest));
            m.Some? && Answerable(m.value, setup) <==>
              && head[236..240] == [99, 130, 83, 99]
              && Deserving(head[0], LastSaid(items, 60), LastSaid(items, 53), head[24..28], setup)
  {
    var m := Parsed(head + (Encode(items) + rest));
    ParsedFields(head, items, rest);
    if m.Some? {
      LastIsRead(items, 60);
      LastIsRead(items, 53);
      AnswerableIsDeserving(m.value, setup);
    }
  }

  /** The boot file by RFC 4578: for the codes of option 93, and everything that is no code. */
  function FileForArch(v: seq<byte>): seq<byte> {
    if v in {[0, 7], [0, 9], [0, 11]} then Ascii("ipxe.efi")
    else if v == [0, 6] then Ascii("ipxe32.efi")
    else Ascii("undionly.kpxe")
  }

  lemma ArchDecides(m: Message, url: seq<byte>)
    ensures BootFile(Arch(m), false, url) == FileForArch(Get(m.options, 93))
  {
    var v := Get(m.options, 93);
    if |v| == 2 {
      assert v == [v[0], v[1]];
    }
  }

  /** The options of a good answer: the five codes, and as boot file the script for iPXE itself,
      or else the loader for the client's architecture. */
  predicate Answers(o: OptionMap, m: Message, server: seq<byte>, port: nat)
    requires |server| == 4
  {
    && o.Keys == {53, 54, 60, 66, 67}
    && o[53] == (if Get(m.options, 53) == [3] then [5] else [2])
    && o[54] == server
    && o[60] == Ascii("PXEClient")
    && o[66] == AddressText(Some(server))
    && o[67] == FileAnswered(Get(m.options, 77), Get(m.options, 93), AddressText(Some(server)), Digits(port))
  }

  function FileAnswered(userClass: seq<byte>, arch: seq<byte>, address: seq<byte>, port: seq<byte>): seq<byte> {
    if Contains(userClass, Ascii("iPXE"))
    then Ascii("http://") + address + Ascii(":") + port + Ascii("/boot.ipxe")
    else FileForArch(arch)
  }

  lemma FileIsAnswered(m: Message, setup: Setup)
    requires setup.Valid() && setup.httpPort >= 0
    ensures BootFileFor(m, setup)
         == FileAnswered(Get(m.options, 77), Get(m.options, 93), AddressText(setup.address), Digits(setup.httpPort))
  {
    ArchDecides(m, HttpUrl(setup));
  }

  lemma OptionsAnswer(m: Message, server: seq<byte>, port: nat, file: seq<byte>)
    requires |server| == 4 && (MessageType(m) == DISCOVER || MessageType(m) == REQUEST)
    requires file == FileAnswered(Get(m.options, 77), Get(m.options, 93), AddressText(Some(server)), Digits(port))
    ensures Answers(ReplyOptions(server, file, ReplyType(m)), m, server, port)
  {
    SaidType(Get(m.options, 53), m);
    assert Ascii("PXEClient") == PXE_CLIENT;
  }

  /** What a client reads in the answer of an IPv4 server is just that. */
  lemma AnswerReads(pkt: seq<byte>, setup: Setup)
    requires setup.Valid() && setup.address.Some? && 0 <= setup.httpPort <= 65535
    requires Parsed(pkt).Some? && Answerable(Parsed(pkt).value, setup)
    ensures var m := Parsed(pkt).value;
            var b := Built(m, setup.address, BootFileFor(m, setup), ReplyType(m));
            b.Some? && Parsed(b.value).Some?
            && Answers(Parsed(b.value).value.options, m, setup.address.value, setup.httpPort)
  {
    var m := Parsed(pkt).value;
    FileIsAnswered(m, setup);
    OptionsAnswer(m, setup.address.value, setup.httpPort, BootFileFor(m, setup));
    ClientReads(pkt, setup);
  }
}
