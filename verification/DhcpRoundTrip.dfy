/** What a receiver reads in the replies that the builder produces. */
module DhcpRoundTrip {
  import opened Sequences
  import opened Text
  import opened DhcpPacket

  predicate Request(req: Message) {
    |req.xid| == 4 && |req.flags| == 2 && |req.giaddr| == 4 && |req.chaddr| == 16
  }

  /** The longest boot file name after which a reply can still be read. */
  const LONGEST := 132

  function ReplyOptions(server: seq<byte>, bootfile: seq<byte>, msgType: byte): OptionMap
    requires |server| == 4
  {
    map[OPT_MESSAGE_TYPE := [msgType], OPT_SERVER_ID := server, OPT_VENDOR_CLASS := PXE_CLIENT,
        OPT_TFTP_SERVER := AddressText(Some(server)), OPT_BOOT_FILE := bootfile]
  }

  function Reply(req: Message, options: OptionMap): Message {
    req.(op := 2, options := options)
  }

  /** The fixed part, byte for byte. A name longer than its 128-byte field runs into the cookie,
      which is written afterwards, and beyond it. */
  lemma FilledFields(req: Message, server: Option<seq<byte>>, bootfile: seq<byte>)
    requires Request(req) && (server.Some? ==> |server.value| == 4) && 108 + |bootfile| <= FIXED
    ensures var h := Filled(req, server, bootfile);
            && h[0] == 2 && h[1] == req.htype && h[2] == req.hlen && h[4..8] == req.xid
            && h[10..12] == req.flags && h[24..28] == req.giaddr && h[28..44] == req.chaddr
            && (server.Some? ==> h[20..24] == server.value)
            && (|bootfile| <= 128 ==> h[108..108 + |bootfile|] == bootfile)
            && h[236..240] == COOKIE
            && (forall i :: HEADER <= i < FIXED ==> h[i] == if i - 108 < |bootfile| then bootfile[i - 108] else 0)
  {
    var a := AddressBytes(server);
    var b0 := Zeros(FIXED)[0 := 2][1 := req.htype][2 := req.hlen];
    var b3 := Put(Put(Put(b0, 4, req.xid), 10, req.flags), 20, a);
    var b5 := Put(Put(b3, 24, req.giaddr), 28, req.chaddr);
    FirstFields(b0, req, a, b3);
    assert b5[24..28] == req.giaddr && b5[28..44] == req.chaddr && b5[..24] == b3[..24];
    NameField(b5, bootfile, Filled(req, server, bootfile));
    var h := Filled(req, server, bootfile);
    SliceOf(h, b5, 108);
    SliceOf(b5, b3, 24);
  }

  lemma SliceOf(h: seq<byte>, b: seq<byte>, n: nat)
    requires n <= |h| && n <= |b| && h[..n] == b[..n]
    ensures forall i, j :: 0 <= i <= j <= n ==> h[i..j] == b[i..j]
    ensures forall i :: 0 <= i < n ==> h[i] == b[i]
  {
    forall i, j | 0 <= i <= j <= n ensures h[i..j] == b[i..j] {
      assert h[..n][i..j] == h[i..j] && b[..n][i..j] == b[i..j];
    }
    forall i | 0 <= i < n ensures h[i] == b[i] {
      assert h[..n][i] == b[..n][i];
    }
  }

  lemma FirstFields(b0: seq<byte>, req: Message, a: seq<byte>, b3: seq<byte>)
    requires Request(req) && |b0| == FIXED && |a| <= 4
    requires b3 == Put(Put(Put(b0, 4, req.xid), 10, req.flags), 20, a)
    ensures b3[0] == b0[0] && b3[1] == b0[1] && b3[2] == b0[2]
    ensures b3[4..8] == req.xid && b3[10..12] == req.flags && b3[20..20 + |a|] == a
    ensures forall i :: 28 <= i < FIXED ==> b3[i] == b0[i]
  {
    var b1 := Put(b0, 4, req.xid);
    var b2 := Put(b1, 10, req.flags);
    assert b3[10..12] == b2[10..12] && b3[4..8] == b2[4..8] == b1[4..8];
  }

  lemma NameField(b5: seq<byte>, bootfile: seq<byte>, h: seq<byte>)
    requires |b5| == FIXED && 108 + |bootfile| <= FIXED && h == Put(Put(b5, 108, bootfile), 236, COOKIE)
    ensures h[..108] == b5[..108] && h[236..240] == COOKIE
    ensures |bootfile| <= 128 ==> h[108..108 + |bootfile|] == bootfile
    ensures forall i :: HEADER <= i < FIXED ==> h[i] == if i - 108 < |bootfile| then bootfile[i - 108] else b5[i]
  {
    var b6 := Put(b5, 108, bootfile);
    forall i | HEADER <= i < FIXED ensures h[i] == if i - 108 < |bootfile| then bootfile[i - 108] else b5[i] {
      assert h[i] == b6[i];
      assert i - 108 < |bootfile| ==> b6[i] == b6[108..108 + |bootfile|][i - 108];
    }
    if |bootfile| <= 128 {
      assert h[108..108 + |bootfile|] == b6[108..108 + |bootfile|];
    }
  }

  // ----- Item lists -----

  lemma {:induction false} EncodeConcat(a: seq<Item>, b: seq<Item>)
    requires Encodable(a) && Encodable(b)
    ensures Encodable(a + b) && Encode(a + b) == Encode(a) + Encode(b)
  {
    if a == [] {
      assert a + b == b;
    } else {
      assert (a + b)[1..] == a[1..] + b;
      EncodeConcat(a[1..], b);
      ConcatAssoc(EncodeItem(a[0]), Encode(a[1..]), Encode(b));
    }
  }

  lemma {:induction false} CollectConcat(a: seq<Item>, b: seq<Item>, m: OptionMap)
    ensures Collect(a + b, m) == Collect(b, Collect(a, m))
  {
    if a == [] {
      assert a + b == b;
    } else {
      assert (a + b)[1..] == a[1..] + b;
      CollectConcat(a[1..], b, Update(a[0], m));
    }
  }

  lemma {:induction false} Padding(n: nat, m: OptionMap)
    ensures Encodable(Repeat(Pad, n)) && Encode(Repeat(Pad, n)) == Zeros(n)
    ensures Collect(Repeat(Pad, n), m) == m
  {
    if n > 0 {
      Padding(n - 1, m);
      assert Repeat(Pad, n)[1..] == Repeat(Pad, n - 1);
      assert [0] + Zeros(n - 1) == Zeros(n);
    }
  }

  /** A padded option area is read as its options alone. */
  lemma PaddedArea(pads: nat, items: seq<Item>, rest: seq<byte>)
    requires Encodable(items) && Stops(rest)
    ensures ReadOptions(Zeros(pads) + (Encode(items) + rest), map[]) == Collect(items, map[])
  {
    var padding := Repeat(Pad, pads);
    Padding(pads, map[]);
    EncodeConcat(padding, items);
    CollectConcat(padding, items, map[]);
    OptionsReadBack(padding + items, rest, map[]);
    ConcatAssoc(Zeros(pads), Encode(items), rest);
  }

  function ReplyItems(server: seq<byte>, bootfile: seq<byte>, msgType: byte): seq<Item>
    requires |server| == 4
  {
    [Opt(OPT_MESSAGE_TYPE, [msgType]), Opt(OPT_SERVER_ID, server), Opt(OPT_VENDOR_CLASS, PXE_CLIENT),
     Opt(OPT_TFTP_SERVER, AddressText(Some(server))), Opt(OPT_BOOT_FILE, bootfile)]
  }

  lemma Encode5(a: Item, b: Item, c: Item, d: Item, e: Item)
    requires Fits(a) && Fits(b) && Fits(c) && Fits(d) && Fits(e)
    ensures Encode([a, b, c, d, e])
         == EncodeItem(a) + EncodeItem(b) + EncodeItem(c) + EncodeItem(d) + EncodeItem(e)
  {
    assert [a, b, c, d, e] == [a] + [b] + [c] + [d] + [e];
    forall x: Item | Fits(x) ensures Encode([x]) == EncodeItem(x) {
      assert [x][1..] == [];
    }
    EncodeConcat([a], [b]);
    EncodeConcat([a] + [b], [c]);
    EncodeConcat([a] + [b] + [c], [d]);
    EncodeConcat([a] + [b] + [c] + [d], [e]);
  }

  lemma Collect5(a: Item, b: Item, c: Item, d: Item, e: Item, m: OptionMap)
    ensures Collect([a, b, c, d, e], m) == Update(e, Update(d, Update(c, Update(b, Update(a, m)))))
  {
    assert [a, b, c, d, e] == [a] + [b] + [c] + [d] + [e];
    CollectConcat([a] + [b] + [c] + [d], [e], m);
    CollectConcat([a] + [b] + [c], [d], m);
    CollectConcat([a] + [b], [c], m);
    CollectConcat([a], [b], m);
    forall x: Item, n: OptionMap ensures Collect([x], n) == Update(x, n) {
      assert [x][1..] == [];
    }
  }

  lemma TrailerIsItems(server: seq<byte>, bootfile: seq<byte>, msgType: byte)
    requires |server| == 4 && |bootfile| < 256
    ensures Encodable(ReplyItems(server, bootfile, msgType))
    ensures Trailer(Some(server), bootfile, msgType) == Encode(ReplyItems(server, bootfile, msgType)) + [OPT_END]
    ensures Collect(ReplyItems(server, bootfile, msgType), map[]) == ReplyOptions(server, bootfile, msgType)
  {
    var text := AddressText(Some(server));
    ReplyEncodes(server, bootfile, msgType, text);
    Regroup([OPT_MESSAGE_TYPE, 1, msgType], [OPT_SERVER_ID, 4], server, [OPT_VENDOR_CLASS, |PXE_CLIENT|], PXE_CLIENT,
            [OPT_TFTP_SERVER, |text| % 256], text, [OPT_BOOT_FILE, |bootfile| % 256], bootfile, [OPT_END]);
    RepliedOptions(server, bootfile, msgType);
  }

  lemma ReplyEncodes(server: seq<byte>, bootfile: seq<byte>, msgType: byte, text: seq<byte>)
    requires |server| == 4 && |bootfile| < 256 && text == AddressText(Some(server))
    ensures Encodable(ReplyItems(server, bootfile, msgType))
    ensures Encode(ReplyItems(server, bootfile, msgType))
         == [OPT_MESSAGE_TYPE, 1, msgType] + ([OPT_SERVER_ID, 4] + server)
            + ([OPT_VENDOR_CLASS, |PXE_CLIENT|] + PXE_CLIENT) + ([OPT_TFTP_SERVER, |text| % 256] + text)
            + ([OPT_BOOT_FILE, |bootfile| % 256] + bootfile)
  {
    AddressTextLength(Some(server));
    var items := ReplyItems(server, bootfile, msgType);
    Encode5(items[0], items[1], items[2], items[3], items[4]);
    assert EncodeItem(items[0]) == [OPT_MESSAGE_TYPE, 1, msgType];
  }

  lemma Regroup(x: seq<byte>, k1: seq<byte>, v1: seq<byte>, k2: seq<byte>, v2: seq<byte>, k3: seq<byte>, v3: seq<byte>,
                k4: seq<byte>, v4: seq<byte>, end: seq<byte>)
    ensures x + k1 + v1 + k2 + v2 + k3 + v3 + k4 + v4 + end
         == x + (k1 + v1) + (k2 + v2) + (k3 + v3) + (k4 + v4) + end
  {
    ConcatAssoc(x, k1, v1);
    ConcatAssoc(x + (k1 + v1), k2, v2);
    ConcatAssoc(x + (k1 + v1) + (k2 + v2), k3, v3);
    ConcatAssoc(x + (k1 + v1) + (k2 + v2) + (k3 + v3), k4, v4);
  }

  lemma RepliedOptions(server: seq<byte>, bootfile: seq<byte>, msgType: byte)
    requires |server| == 4
    ensures Collect(ReplyItems(server, bootfile, msgType), map[]) == ReplyOptions(server, bootfile, msgType)
  {
    var items := ReplyItems(server, bootfile, msgType);
    Collect5(items[0], items[1], items[2], items[3], items[4], map[]);
  }

  // ----- Round trips -----

  /** A reply reads back as whatever items its option part consists of. */
  lemma BuiltReads(req: Message, server: Option<seq<byte>>, bootfile: seq<byte>, msgType: byte,
                   items: seq<Item>, rest: seq<byte>)
    requires Request(req) && (server.Some? ==> |server.value| == 4) && |bootfile| <= LONGEST
    requires Encodable(items) && Stops(rest) && Trailer(server, bootfile, msgType) == Encode(items) + rest
    ensures var b := Built(req, server, bootfile, msgType);
            b.Some? && Parsed(b.value) == Some(Reply(req, Collect(items, map[])))
  {
    var h, t := Filled(req, server, bootfile), Trailer(server, bootfile, msgType);
    FilledFields(req, server, bootfile);
    PaddedArea(FIXED - HEADER, items, rest);
    assert h[HEADER..] == Zeros(FIXED - HEADER);
    HeadReads(req, h, t, Collect(items, map[]));
  }

  ghost predicate IsReplyHead(req: Message, h: seq<byte>) {
    && |h| == FIXED
    && h[0] == 2 && h[1] == req.htype && h[2] == req.hlen && h[4..8] == req.xid
    && h[10..12] == req.flags && h[24..28] == req.giaddr && h[28..44] == req.chaddr && h[236..240] == COOKIE
  }

  lemma HeadReads(req: Message, h: seq<byte>, t: seq<byte>, m: OptionMap)
    requires Request(req) && IsReplyHead(req, h)
    requires ReadOptions(h[HEADER..] + t, map[]) == m
    ensures Parsed(h + t) == Some(Reply(req, m))
  {
    HeadSurvives(h, t);
    assert (h + t)[HEADER..] == h[HEADER..] + t;
  }

  /** The reply to any request, for an IPv4 server and a name of up to 132 bytes, is read back
      field by field, despite the 60 unused bytes before the options. */
  lemma ReplyReadsBack(req: Message, server: seq<byte>, bootfile: seq<byte>, msgType: byte)
    requires Request(req) && |server| == 4 && |bootfile| <= LONGEST
    ensures var b := Built(req, Some(server), bootfile, msgType);
            b.Some? && Parsed(b.value) == Some(Reply(req, ReplyOptions(server, bootfile, msgType)))
  {
    TrailerIsItems(server, bootfile, msgType);
    BuiltReads(req, Some(server), bootfile, msgType, ReplyItems(server, bootfile, msgType), [OPT_END]);
  }

  lemma HeadSurvives(h: seq<byte>, t: seq<byte>)
    requires |h| == FIXED
    ensures var b := h + t;
            && b[4..8] == h[4..8] && b[10..12] == h[10..12] && b[24..28] == h[24..28]
            && b[28..44] == h[28..44] && b[236..240] == h[236..240] && b[..3] == h[..3]
  {
  }

  /** 132 is exact: beyond it some name of each length makes the reply unreadable, and beyond
      192 building it panics. */
  lemma {:induction false} BootFileLimit(req: Message, server: seq<byte>, msgType: byte, n: nat)
    requires Request(req) && |server| == 4
    ensures (forall bootfile: seq<byte> | |bootfile| == n ::
               var b := Built(req, Some(server), bootfile, msgType);
               b.Some? && Parsed(b.value) == Some(Reply(req, ReplyOptions(server, bootfile, msgType))))
            <==> n <= LONGEST
  {
    if n <= LONGEST {
      forall bootfile: seq<byte> | |bootfile| == n
        ensures var b := Built(req, Some(server), bootfile, msgType);
                b.Some? && Parsed(b.value) == Some(Reply(req, ReplyOptions(server, bootfile, msgType)))
      {
        ReplyReadsBack(req, server, bootfile, msgType);
      }
    } else {
      var bad := Repeat(OPT_END, n);
      if n <= FIXED - 108 {
        EndTooEarly(req, server, bad, msgType);
      }
      assert OPT_MESSAGE_TYPE in ReplyOptions(server, bad, msgType);
      assert |bad| == n;
    }
  }

  lemma EndTooEarly(req: Message, server: seq<byte>, bootfile: seq<byte>, msgType: byte)
    requires Request(req) && |server| == 4 && LONGEST < |bootfile| <= FIXED - 108 && bootfile[LONGEST] == OPT_END
    ensures var b := Built(req, Some(server), bootfile, msgType).value;
            Parsed(b).Some? && Parsed(b).value.options == map[]
  {
    var h := Filled(req, Some(server), bootfile);
    var t := Trailer(Some(server), bootfile, msgType);
    FilledFields(req, Some(server), bootfile);
    HeadSurvives(h, t);
    assert (h + t)[HEADER..][0] == h[HEADER] == OPT_END;
  }

  /** With a configured address that is not IPv4 the server option swallows the next one: the
      reply then no longer names PXEClient, the TFTP server or the boot file. */
  lemma ReplyWithoutAddress(req: Message, bootfile: seq<byte>, msgType: byte)
    requires Request(req) && |bootfile| < 52
    ensures var b := Built(req, None, bootfile, msgType);
            b.Some? && Parsed(b.value) == Some(Reply(req, SwallowedOptions(msgType)))
  {
    Swallowed(bootfile, msgType);
    BuiltReads(req, None, bootfile, msgType, SwallowedItems(msgType), Trailer(None, bootfile, msgType)[9..]);
  }

  function SwallowedOptions(msgType: byte): OptionMap {
    map[OPT_MESSAGE_TYPE := [msgType], OPT_SERVER_ID := [OPT_VENDOR_CLASS, 9, 80, 88]]
  }

  function SwallowedItems(msgType: byte): seq<Item> {
    [Opt(OPT_MESSAGE_TYPE, [msgType]), Opt(OPT_SERVER_ID, [OPT_VENDOR_CLASS, 9, 80, 88])]
  }

  lemma Swallowed(bootfile: seq<byte>, msgType: byte)
    requires |bootfile| < 52
    ensures var items := SwallowedItems(msgType);
            var t := Trailer(None, bootfile, msgType);
            && Encodable(items)
            && |t| >= 9 && t == Encode(items) + t[9..] && Stops(t[9..])
            && Collect(items, map[]) == SwallowedOptions(msgType)
  {
    SwallowedHead(bootfile, msgType);
    SwallowedItemsRead(msgType);
  }

  lemma SwallowedHead(bootfile: seq<byte>, msgType: byte)
    requires |bootfile| < 52
    ensures var t := Trailer(None, bootfile, msgType);
            && |t| >= 9
            && t[..9] == [OPT_MESSAGE_TYPE, 1, msgType] + [OPT_SERVER_ID, 4] + [OPT_VENDOR_CLASS, 9, 80, 88]
            && Stops(t[9..])
  {
    var t := Trailer(None, bootfile, msgType);
    assert t[9] == 69 && t[10] == 67 && |t| == 26 + |bootfile|;
  }

  lemma SwallowedItemsRead(msgType: byte)
    ensures Encodable(SwallowedItems(msgType))
    ensures Encode(SwallowedItems(msgType))
         == [OPT_MESSAGE_TYPE, 1, msgType] + [OPT_SERVER_ID, 4] + [OPT_VENDOR_CLASS, 9, 80, 88]
    ensures Collect(SwallowedItems(msgType), map[]) == SwallowedOptions(msgType)
  {
    var items := SwallowedItems(msgType);
    var x, y := items[0], items[1];
    assert items[1..] == [y] && [y][1..] == [];
    assert Encode([y]) == EncodeItem(y);
    assert Collect([y], Update(x, map[])) == Update(y, Update(x, map[]));
  }
}
