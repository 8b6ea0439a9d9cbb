/**
 * `src/node/network/view.rs`: how the peer table presents a peer — the ASN
 * tooltip on its address, the implementation icon, the decoded service
 * flags, the transport — and the fixed 16-row table.
 *
 * The peer record of this view carries the socket address and the service
 * bitmask as a number; it is modelled on its own terms.
 */
module NetworkView {
  import opened Common
  import Statistics
  import Message
  import GeoIp

  /** A `ServiceFlags` bitmask: a `u64`. */
  type ServiceBits = n: nat | n < U64_MODULUS

  /** A peer as this view reads it. */
  datatype NetPeer = NetPeer(
    socket: string,
    ip: string,
    nodeImpl: Statistics.NodeImpl,
    userAgent: string,
    services: ServiceBits,
    transport: Statistics.TransportProtocol)

  // ---------------------------------------------------------------------------
  // Address tooltip

  const NOT_FOUND: string := "NO INFORMATION\nAVAILABLE FOR THIS ADDRESS"

  /** The tooltip lines: `AS<n>` and the organisation when the ASN is known, then the city text. */
  function TooltipLines(geo: GeoIp.GeoInfo): (lines: seq<string>)
    ensures lines == [] <==> geo.asn.None? && geo.city.None?
    ensures |lines| == (if geo.asn.Some? then 2 else 0) + (if geo.city.Some? then 1 else 0)
    ensures geo.asn.Some? ==>
      (|lines| >= 2 && lines[0] == "AS" + NatToString(geo.asn.value.number) && lines[1] == geo.asn.value.organization)
    ensures geo.city.Some? ==> lines[|lines| - 1] == GeoIp.CityDisplay(geo.city.value)
  {
    (if geo.asn.Some? then ["AS" + NatToString(geo.asn.value.number), geo.asn.value.organization] else [])
    + (if geo.city.Some? then [GeoIp.CityDisplay(geo.city.value)] else [])
  }

  /** `get_address_with_asn_tooltip`'s text: the lines joined, or the notice without a reader or lines. */
  function AsnTooltip(reader: Option<GeoIp.GeoIpReader>, ip: string): (text: string)
    ensures reader.None? ==> text == NOT_FOUND
    ensures reader.Some? && TooltipLines(GeoIp.LookupAll(reader.value, ip)) == [] ==> text == NOT_FOUND
    ensures reader.Some? && GeoIp.LookupAsn(reader.value, ip).Some? ==>
      var first := "AS" + NatToString(GeoIp.LookupAsn(reader.value, ip).value.number);
      |first| <= |text| && text[..|first|] == first
    ensures reader.Some? && TooltipLines(GeoIp.LookupAll(reader.value, ip)) != [] ==>
      text == Join(TooltipLines(GeoIp.LookupAll(reader.value, ip)), "\n")
  {
    match reader
    case None => NOT_FOUND
    case Some(r) =>
      var lines := TooltipLines(GeoIp.LookupAll(r, ip));
      if lines == [] then NOT_FOUND
      else
        JoinStartsWithFirst(lines, "\n");
        Join(lines, "\n")
  }

  /**
   * The tooltip text case by case: the ASN number line and the organisation,
   * then the city, one per line; the notice when nothing is known.
   */
  lemma AsnTooltipTexts(r: GeoIp.GeoIpReader, ip: string)
    ensures var g := GeoIp.LookupAll(r, ip); var text := AsnTooltip(Some(r), ip);
      && (g.asn.Some? && g.city.Some? ==>
            text == "AS" + NatToString(g.asn.value.number) + "\n" + g.asn.value.organization
                    + "\n" + GeoIp.CityDisplay(g.city.value))
      && (g.asn.Some? && g.city.None? ==>
            text == "AS" + NatToString(g.asn.value.number) + "\n" + g.asn.value.organization)
      && (g.asn.None? && g.city.Some? ==> text == GeoIp.CityDisplay(g.city.value))
      && (g.asn.None? && g.city.None? ==> text == NOT_FOUND)
  {
    var g := GeoIp.LookupAll(r, ip);
    var lines := TooltipLines(g);
    if g.asn.Some? {
      var first := "AS" + NatToString(g.asn.value.number);
      var org := g.asn.value.organization;
      if g.city.Some? {
        assert lines == [first, org, GeoIp.CityDisplay(g.city.value)];
        JoinThree(first, org, GeoIp.CityDisplay(g.city.value), "\n");
      } else {
        assert lines == [first, org];
        JoinTwo(first, org, "\n");
      }
    }
  }

  lemma JoinTwo(a: string, b: string, sep: string)
    ensures Join([a, b], sep) == a + sep + b
  {
    assert [a, b][1..] == [b];
  }

  lemma JoinThree(a: string, b: string, c: string, sep: string)
    ensures Join([a, b, c], sep) == a + sep + b + sep + c
  {
    assert [a, b, c][1..] == [b, c];
    JoinTwo(b, c, sep);
  }

  // ---------------------------------------------------------------------------
  // Implementation icon and transport

  /** `get_impl_icon`'s image path for each implementation. */
  function ImplIconPath(i: Statistics.NodeImpl): (path: string)
    ensures |path| > 28 && path[..28] == "assets/icon/implementations/"
  {
    match i
    case Core => "assets/icon/implementations/core.png"
    case Knots => "assets/icon/implementations/knots.png"
    case Btcd => "assets/icon/implementations/btcd.png"
    case Utreexod => "assets/icon/implementations/utreexod.jpeg"
    case Floresta => "assets/icon/implementations/floresta.png"
    case Unknown => "assets/icon/implementations/unknown.png"
  }

  /** Every implementation has an icon of its own. */
  lemma ImplIconPathInjective(a: Statistics.NodeImpl, b: Statistics.NodeImpl)
    requires ImplIconPath(a) == ImplIconPath(b)
    ensures a == b
  {
  }

  /** `get_transport_with_tooltip`: the label and the explanation of a transport. */
  function TransportLabel(t: Statistics.TransportProtocol): (r: (string, string))
    ensures t == Statistics.V1 ==> r.0 == "P2PV1"
    ensures t == Statistics.V2 ==> r.0 == "P2PV2"
  {
    match t
    case V1 => ("P2PV1", "Network messages between you and\nthis peer are not encrypted")
    case V2 => ("P2PV2", "Network messages between you and this\npeer are encrypted using ChaCha20Poly1305")
  }

  // ---------------------------------------------------------------------------
  // Service flags

  /** `format!("0x{:016x}", services)`. */
  function ServicesHex(bits: ServiceBits): (text: string)
    ensures |text| == 18 && text[..2] == "0x"
    ensures forall i | 2 <= i < 18 :: IsLowerHex(text[i])
    ensures HexDigitsValue(text[2..]) == bits
  {
    var digits := HexFixed(bits, 16);
    HexFixed64(bits);
    assert ("0x" + digits)[2..] == digits;
    "0x" + digits
  }

  /** Sixteen hex digits hold every 64-bit value. */
  lemma HexFixed64(bits: nat)
    requires bits < U64_MODULUS
    ensures HexDigitsValue(HexFixed(bits, 16)) == bits
  {
    HexFixedValue(bits, 16);
    Pow16Is64Bits();
    LemmaModUnique(bits, U64_MODULUS, 0, bits);
  }

  lemma Pow16Is64Bits()
    ensures Pow(16, 16) == U64_MODULUS
  {
    assert Pow(16, 2) == 256;
    assert Pow(16, 4) == Pow(16, 2) * Pow(16, 2) by { PowAdd(16, 2, 2); }
    assert Pow(16, 8) == Pow(16, 4) * Pow(16, 4) by { PowAdd(16, 4, 4); }
    assert Pow(16, 16) == Pow(16, 8) * Pow(16, 8) by { PowAdd(16, 8, 8); }
  }

  /** A named service flag and its bit. */
  datatype Flag = Flag(name: string, bit: nat)

  /**
   * `ALL_FLAGS`: the service bits of BIP 64 (GETUTXO), BIP 111 (BLOOM),
   * BIP 144 (WITNESS), BIP 157 (COMPACT_FILTERS), BIP 159 (NETWORK_LIMITED),
   * BIP 324 (P2P_V2), with NETWORK, in this order.
   */
  const ALL_FLAGS: seq<Flag> := [
    Flag("NETWORK", 0), Flag("GETUTXO", 1), Flag("BLOOM", 2), Flag("WITNESS", 3),
    Flag("COMPACT_FILTERS", 6), Flag("NETWORK_LIMITED", 10), Flag("P2P_V2", 11)]

  /** The non-standard Utreexo bits checked after the table. */
  const UTREEXO_FLAGS: seq<Flag> := [Flag("NODE_UTREEXO", 24), Flag("NODE_UTREEXO_ARCHIVE", 25)]

  /** Every flag the view can name, in the order it lists them. */
  const KNOWN_FLAGS: seq<Flag> := ALL_FLAGS + UTREEXO_FLAGS

  /** The names of the flags in `flags` whose bit is set, in order. */
  function FlagFilter(flags: seq<Flag>, bits: nat): seq<string>
    decreases |flags|
  {
    if flags == [] then []
    else
      var last := flags[|flags| - 1];
      FlagFilter(flags[..|flags| - 1], bits) + (if HasBit(bits, last.bit) then [last.name] else [])
  }

  /** A name is listed exactly when some flag of that name has its bit set. */
  lemma {:induction false} FlagFilterMembers(flags: seq<Flag>, bits: nat, name: string)
    ensures name in FlagFilter(flags, bits) <==>
      exists i | 0 <= i < |flags| :: flags[i].name == name && HasBit(bits, flags[i].bit)
    decreases |flags|
  {
    if flags != [] {
      var init := flags[..|flags| - 1];
      FlagFilterMembers(init, bits, name);
      if exists i | 0 <= i < |init| :: init[i].name == name && HasBit(bits, init[i].bit) {
        var i :| 0 <= i < |init| && init[i].name == name && HasBit(bits, init[i].bit);
        assert flags[i] == init[i];
      }
      if exists i | 0 <= i < |flags| :: flags[i].name == name && HasBit(bits, flags[i].bit) {
        var i :| 0 <= i < |flags| && flags[i].name == name && HasBit(bits, flags[i].bit);
        if i < |init| {
          assert init[i] == flags[i];
        }
      }
    }
  }

  /** `get_services_with_tooltip`'s list: the table filtered by the bitmask, then the Utreexo bits. */
  method ServiceNames(bits: nat) returns (names: seq<string>)
    ensures names == FlagFilter(KNOWN_FLAGS, bits)
  {
    names := FilterFlags(ALL_FLAGS, bits);
    if HasBit(bits, 24) {
      names := names + ["NODE_UTREEXO"];
    }
    if HasBit(bits, 25) {
      names := names + ["NODE_UTREEXO_ARCHIVE"];
    }
    KnownFlagFilter(bits);
  }

  /** The known flags are filtered as the table, then the two Utreexo bits. */
  lemma KnownFlagFilter(bits: nat)
    ensures FlagFilter(KNOWN_FLAGS, bits) ==
      FlagFilter(ALL_FLAGS, bits)
      + (if HasBit(bits, 24) then ["NODE_UTREEXO"] else [])
      + (if HasBit(bits, 25) then ["NODE_UTREEXO_ARCHIVE"] else [])
  {
    FlagFilterSnoc(ALL_FLAGS, UTREEXO_FLAGS[0], bits);
    FlagFilterSnoc(ALL_FLAGS + [UTREEXO_FLAGS[0]], UTREEXO_FLAGS[1], bits);
    TwoMore(ALL_FLAGS, UTREEXO_FLAGS);
  }

  lemma TwoMore<T>(s: seq<T>, t: seq<T>)
    requires |t| == 2
    ensures s + t == s + [t[0]] + [t[1]]
  {
  }

  /** The loop over a flag table: the names of the flags whose bit is set, in table order. */
  method FilterFlags(flags: seq<Flag>, bits: nat) returns (names: seq<string>)
    ensures names == FlagFilter(flags, bits)
  {
    names := [];
    for k := 0 to |flags|
      invariant names == FlagFilter(flags[..k], bits)
    {
      FlagFilterSnoc(flags[..k], flags[k], bits);
      assert flags[..k] + [flags[k]] == flags[..k + 1];
      if HasBit(bits, flags[k].bit) {
        names := names + [flags[k].name];
      }
    }
    assert flags[..|flags|] == flags;
  }

  /** Filtering one more flag appends its name when its bit is set. */
  lemma FlagFilterSnoc(flags: seq<Flag>, f: Flag, bits: nat)
    ensures FlagFilter(flags + [f], bits) == FlagFilter(flags, bits) + (if HasBit(bits, f.bit) then [f.name] else [])
  {
    assert (flags + [f])[..|flags|] == flags;
  }

  /**
   * The names listed are exactly those of the nine known flags whose bit is
   * set; no other bit ever produces a name.
   */
  lemma ServiceNamesExact(bits: nat, name: string)
    ensures name in FlagFilter(KNOWN_FLAGS, bits) <==>
      exists i | 0 <= i < |KNOWN_FLAGS| :: KNOWN_FLAGS[i].name == name && HasBit(bits, KNOWN_FLAGS[i].bit)
  {
    FlagFilterMembers(KNOWN_FLAGS, bits, name);
  }

  /** The tooltip text: the names one per line, or `NONE`. */
  function ServicesText(names: seq<string>): (text: string)
    ensures names == [] ==> text == "NONE"
    ensures names != [] ==> |names[0]| <= |text| && text[..|names[0]|] == names[0]
    ensures names != [] && (forall i | 0 <= i < |names| :: '\n' !in names[i]) ==> SplitOn(text, '\n') == names
  {
    if names == [] then "NONE"
    else
      JoinStartsWithFirst(names, "\n");
      if forall i | 0 <= i < |names| :: '\n' !in names[i] then
        SplitOnJoin(names, '\n');
        Join(names, "\n")
      else
        Join(names, "\n")
  }

  /** No flag name contains a line break. */
  lemma FlagNamesSingleLine(bits: nat)
    ensures forall i | 0 <= i < |FlagFilter(KNOWN_FLAGS, bits)| :: '\n' !in FlagFilter(KNOWN_FLAGS, bits)[i]
  {
    var names := FlagFilter(KNOWN_FLAGS, bits);
    forall i | 0 <= i < |names| ensures '\n' !in names[i] {
      var n := names[i];
      assert n in names;
      FlagFilterMembers(KNOWN_FLAGS, bits, n);
      var k :| 0 <= k < |KNOWN_FLAGS| && KNOWN_FLAGS[k].name == n && HasBit(bits, KNOWN_FLAGS[k].bit);
      KnownFlagSingleLine(k);
    }
  }

  lemma KnownFlagSingleLine(k: nat)
    requires k < |KNOWN_FLAGS|
    ensures '\n' !in KNOWN_FLAGS[k].name
  {
    if k < |ALL_FLAGS| {
      assert KNOWN_FLAGS[k] == ALL_FLAGS[k];
      TableFlagSingleLine(k);
    } else {
      assert KNOWN_FLAGS[k] == UTREEXO_FLAGS[k - |ALL_FLAGS|];
      UtreexoFlagSingleLine(k - |ALL_FLAGS|);
    }
  }

  lemma TableFlagSingleLine(k: nat)
    requires k < |ALL_FLAGS|
    ensures '\n' !in ALL_FLAGS[k].name
  {
    if k == 0 {
      assert '\n' !in "NETWORK";
      assert ALL_FLAGS[0].name == "NETWORK";
    } else if k == 1 {
      assert '\n' !in "GETUTXO";
      assert ALL_FLAGS[1].name == "GETUTXO";
    } else if k == 2 {
      assert '\n' !in "BLOOM";
      assert ALL_FLAGS[2].name == "BLOOM";
    } else if k == 3 {
      assert '\n' !in "WITNESS";
      assert ALL_FLAGS[3].name == "WITNESS";
    } else if k == 4 {
      assert '\n' !in "COMPACT_FILTERS";
      assert ALL_FLAGS[4].name == "COMPACT_FILTERS";
    } else if k == 5 {
      assert '\n' !in "NETWORK_LIMITED";
      assert ALL_FLAGS[5].name == "NETWORK_LIMITED";
    } else {
      assert '\n' !in "P2P_V2";
      assert ALL_FLAGS[6].name == "P2P_V2";
    }
  }

  lemma UtreexoFlagSingleLine(k: nat)
    requires k < |UTREEXO_FLAGS|
    ensures '\n' !in UTREEXO_FLAGS[k].name
  {
    if k == 0 {
      assert '\n' !in "NODE_UTREEXO";
      assert UTREEXO_FLAGS[0].name == "NODE_UTREEXO";
    } else {
      assert '\n' !in "NODE_UTREEXO_ARCHIVE";
      assert UTREEXO_FLAGS[1].name == "NODE_UTREEXO_ARCHIVE";
    }
  }

  /**
   * The tooltip lists every set known flag, one per line: its lines are
   * exactly the filtered names, in order, or the single line `NONE`.
   */
  lemma ServicesTextLines(bits: nat)
    ensures SplitOn(ServicesText(FlagFilter(KNOWN_FLAGS, bits)), '\n') ==
      (if FlagFilter(KNOWN_FLAGS, bits) == [] then ["NONE"] else FlagFilter(KNOWN_FLAGS, bits))
  {
    var names := FlagFilter(KNOWN_FLAGS, bits);
    if names == [] {
      SplitOnNoSep("NONE", '\n');
    } else {
      FlagNamesSingleLine(bits);
    }
  }

  /** The tooltip says `NONE` exactly when none of the nine known bits is set. */
  lemma ServicesTextNone(bits: nat)
    ensures ServicesText(FlagFilter(KNOWN_FLAGS, bits)) == "NONE" <==>
      forall i | 0 <= i < |KNOWN_FLAGS| :: !HasBit(bits, KNOWN_FLAGS[i].bit)
  {
    var names := FlagFilter(KNOWN_FLAGS, bits);
    if names != [] {
      var n := names[0];
      assert n in names;
      FlagFilterMembers(KNOWN_FLAGS, bits, n);
      var i :| 0 <= i < |KNOWN_FLAGS| && KNOWN_FLAGS[i].name == n && HasBit(bits, KNOWN_FLAGS[i].bit);
      assert |n| > 4;
      JoinStartsWithFirst(names, "\n");
    } else {
      forall i | 0 <= i < |KNOWN_FLAGS| ensures !HasBit(bits, KNOWN_FLAGS[i].bit) {
        FlagFilterMembers(KNOWN_FLAGS, bits, KNOWN_FLAGS[i].name);
      }
    }
  }

  // ---------------------------------------------------------------------------
  // Peer table

  /** The cells of a table row. */
  datatype PeerRow =
    | PeerCells(socket: string, tooltip: string, implPath: string, implText: string, userAgent: string,
                servicesHex: string, transport: string, ban: Message.NodeMessage, disconnect: Message.NodeMessage)
    | BlankRow

  /** The row for one peer; its ban button sends `Tick`, its disconnect button the peer's socket. */
  function RowFor(p: NetPeer, reader: Option<GeoIp.GeoIpReader>): (row: PeerRow)
    ensures row.PeerCells? && row.socket == p.socket && row.disconnect == Message.DisconnectPeer(p.socket)
    ensures row.ban == Message.Tick && row.userAgent == p.userAgent
    ensures row.tooltip == AsnTooltip(reader, p.ip) && row.servicesHex == ServicesHex(p.services)
    ensures row.implPath == ImplIconPath(p.nodeImpl) && row.implText == Statistics.ImplDisplay(p.nodeImpl)
    ensures row.transport == TransportLabel(p.transport).0
  {
    PeerCells(p.socket, AsnTooltip(reader, p.ip), ImplIconPath(p.nodeImpl), Statistics.ImplDisplay(p.nodeImpl),
              p.userAgent, ServicesHex(p.services), TransportLabel(p.transport).0,
              Message.Tick, Message.DisconnectPeer(p.socket))
  }

  const NUM_ROWS: nat := 16

  /**
   * The `for i in 0..n` loop of the table: row `i` is `cells[i]` when there is
   * one and `blank` otherwise.
   */
  method FillRows<T>(cells: seq<T>, n: nat, blank: T) returns (rows: seq<T>)
    ensures |rows| == n
    ensures forall i | 0 <= i < n :: rows[i] == if i < |cells| then cells[i] else blank
  {
    rows := [];
    for i := 0 to n
      invariant |rows| == i
      invariant forall j | 0 <= j < i :: rows[j] == if j < |cells| then cells[j] else blank
    {
      if i < |cells| {
        rows := rows + [cells[i]];
      } else {
        rows := rows + [blank];
      }
    }
  }

  /**
   * The table body: always 16 rows; row `i` shows peer `i` when there is one
   * and is blank otherwise. Peers beyond the sixteenth are not shown.
   */
  method PeerTable(peers: seq<NetPeer>, reader: Option<GeoIp.GeoIpReader>) returns (rows: seq<PeerRow>)
    ensures |rows| == NUM_ROWS
    ensures forall i | 0 <= i < NUM_ROWS ::
      rows[i] == (if i < |peers| then RowFor(peers[i], reader) else BlankRow)
  {
    var cells := seq(|peers|, j requires 0 <= j < |peers| => RowFor(peers[j], reader));
    rows := FillRows(cells, NUM_ROWS, BlankRow);
  }
}
