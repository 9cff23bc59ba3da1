/**
 Multiplexing and demultiplexing as inverses: for every uplink PDU made of the
 sub-PDUs the demultiplexer handles, and for the PDUs the multiplexer builds.
 */
module MacRoundTrip {
  import opened Common
  import opened BitString
  import opened MacDemux
  import MacMux

  // ------------------------------------------------- uplink PDUs, from the standard

  /** The handled sub-PDUs; a long BSR announces the groups that carry a level. */
  datatype SubPdu =
    | Ccch(data: seq<byte>)
    | Sdu(lcid: nat, data: seq<byte>)
    | Short(lcg: nat, level: nat)
    | Long(levels: seq<Option<byte>>)
  {
    predicate Valid() {
      match this
      case Ccch(data) => |data| == UL_CCCH_LEN
      case Sdu(lcid, data) => 1 <= lcid <= MAC_LCID_MAX && |data| < 65536
      case Short(lcg, level) => lcg < MAX_NUM_LOGICAL_CHANNEL_GROUPS && level < 32
      case Long(levels) => |levels| == MAX_NUM_LOGICAL_CHANNEL_GROUPS
    }
  }

  function Bitmap(levels: seq<Option<byte>>): nat {
    if levels == [] then 0 else (if levels[0].Some? then 1 else 0) + 2 * Bitmap(levels[1..])
  }

  function LevelOctets(levels: seq<Option<byte>>): seq<byte> {
    if levels == [] then []
    else if levels[0].None? then LevelOctets(levels[1..])
    else [levels[0].value] + LevelOctets(levels[1..])
  }

  /** Level 0 means an empty buffer; the demultiplexer does not report it. */
  function Announced(levels: seq<Option<byte>>, g: nat): seq<(nat, nat)> {
    if levels == [] then []
    else if levels[0].None? || levels[0].value == 0 then Announced(levels[1..], g + 1)
    else [(g, levels[0].value as nat)] + Announced(levels[1..], g + 1)
  }

  lemma {:induction false} BitmapBound(levels: seq<Option<byte>>)
    ensures Bitmap(levels) < Pow2(|levels|)
  {
    if levels != [] { BitmapBound(levels[1..]); }
  }

  function Encode(s: SubPdu): (r: seq<byte>)
    requires s.Valid()
    ensures |r| > 0
  {
    match s
    case Ccch(data) => [MAC_LCID_CCCH] + data
    case Sdu(lcid, data) => MacMux.Subheader(lcid, |data|) + data
    case Short(lcg, level) => [MAC_LCID_SHORT_BSR, 32 * lcg + level]
    case Long(levels) =>
      BitmapBound(levels);
      assert Pow2(8) == 256;
      [MAC_LCID_LONG_BSR, Bitmap(levels)] + LevelOctets(levels)
  }

  function EventOf(s: SubPdu): Event {
    match s
    case Ccch(data) => UlCcch(data)
    case Sdu(lcid, data) => UlData(lcid, data)
    case Short(lcg, level) => ShortBsr(lcg, level)
    case Long(levels) => LongBsr(Announced(levels, 0))
  }

  predicate AllValid(subs: seq<SubPdu>) {
    forall k :: 0 <= k < |subs| ==> subs[k].Valid()
  }

  function Encodings(subs: seq<SubPdu>): (r: seq<seq<byte>>)
    requires AllValid(subs)
    ensures |r| == |subs|
  {
    seq(|subs|, k requires 0 <= k < |subs| => Encode(subs[k]))
  }

  function Concat(chunks: seq<seq<byte>>): seq<byte> {
    if chunks == [] then [] else chunks[0] + Concat(chunks[1..])
  }

  function EncodeAll(subs: seq<SubPdu>): seq<byte>
    requires AllValid(subs)
  {
    Concat(Encodings(subs))
  }

  /** `e` stands at index `i` of the PDU. */
  predicate At(pdu: seq<byte>, i: nat, e: seq<byte>) {
    i + |e| <= |pdu| && pdu[i..i + |e|] == e
  }

  function Events(subs: seq<SubPdu>): (r: seq<Event>)
    ensures |r| == |subs|
  {
    seq(|subs|, k requires 0 <= k < |subs| => EventOf(subs[k]))
  }

  /** The lengths this reading of the length field gets right. */
  predicate Readable(s: SubPdu, m: Reading) {
    m.codedLength && s.Sdu? ==> |s.data| <= 255
  }

  // ---------------------------------------------------------------- one turn

  lemma {:induction false} VolumesOfLevels(pdu: seq<byte>, levels: seq<Option<byte>>, g: nat, i: nat, m: Reading)
    requires !m.wrappedIndex
    requires i + |LevelOctets(levels)| <= |pdu| && pdu[i..i + |LevelOctets(levels)|] == LevelOctets(levels)
    ensures GroupCount(Bitmap(levels)) == |LevelOctets(levels)|
    ensures Volumes(pdu, Bitmap(levels), g, i, m) == Announced(levels, g)
  {
    if levels != [] {
      var n, next := |LevelOctets(levels)|, i + (if levels[0].Some? then 1 else 0);
      assert pdu[next..i + n] == pdu[i..i + n][next - i..] == LevelOctets(levels[1..]);
      VolumesOfLevels(pdu, levels[1..], g + 1, next, m);
      assert Bitmap(levels) / 2 == Bitmap(levels[1..]);
      if levels[0].Some? {
        assert pdu[i] == pdu[i..i + n][0] == levels[0].value;
      }
    }
  }

  lemma SduTurnOfSub(pdu: seq<byte>, i: nat, s: SubPdu, m: Reading)
    requires s.Sdu? && s.Valid() && Readable(s, m) && !m.wrappedIndex
    requires At(pdu, i, Encode(s))
    ensures SduTurn(pdu, i, |pdu| - i, s.lcid, m) == Take(EventOf(s), |Encode(s)|)
  {
    var head := |MacMux.Subheader(s.lcid, |s.data|)|;
    SduShapeOfSub(pdu, i, s, m);
    Inside(pdu, i, Encode(s), head);
    assert Encode(s)[head..] == s.data;
  }

  lemma SduShapeOfSub(pdu: seq<byte>, i: nat, s: SubPdu, m: Reading)
    requires s.Sdu? && s.Valid() && Readable(s, m) && !m.wrappedIndex
    requires At(pdu, i, Encode(s))
    ensures SduShape(pdu, i, |pdu| - i, m) == Some((|MacMux.Subheader(s.lcid, |s.data|)|, |s.data|))
  {
    assert pdu[i] == Encode(s)[0] && pdu[i + 1] == Encode(s)[1];
    if |s.data| > 255 { assert pdu[i + 2] == Encode(s)[2]; }
  }

  lemma Inside(pdu: seq<byte>, i: nat, e: seq<byte>, from: nat)
    requires At(pdu, i, e) && from <= |e|
    ensures pdu[i + from..i + |e|] == e[from..]
  {
    assert pdu[i + from..i + |e|] == pdu[i..i + |e|][from..];
  }

  lemma CcchTurnOfSub(pdu: seq<byte>, i: nat, s: SubPdu, m: Reading)
    requires s.Ccch? && s.Valid() && !m.wrappedIndex && At(pdu, i, Encode(s))
    ensures DemuxTurn(pdu, i, |pdu| - i, m) == Take(EventOf(s), |Encode(s)|)
  {
    assert pdu[i] == Encode(s)[0];
    assert pdu[i + 1..i + 7] == pdu[i..i + 7][1..];
  }

  lemma ShortTurnOfSub(pdu: seq<byte>, i: nat, s: SubPdu, m: Reading)
    requires s.Short? && s.Valid() && !m.wrappedIndex && At(pdu, i, Encode(s))
    ensures DemuxTurn(pdu, i, |pdu| - i, m) == Take(EventOf(s), |Encode(s)|)
  {
    assert pdu[i] == Encode(s)[0] && pdu[i + 1] == Encode(s)[1];
  }

  lemma LongTurnOfSub(pdu: seq<byte>, i: nat, s: SubPdu, m: Reading)
    requires s.Long? && s.Valid() && !m.wrappedIndex && At(pdu, i, Encode(s))
    ensures LongBsrTurn(pdu, i, |pdu| - i, m) == Take(EventOf(s), |Encode(s)|)
  {
    var e := Encode(s);
    assert pdu[i + 1] == e[1];
    assert pdu[i + 2..i + |e|] == pdu[i..i + |e|][2..] == LevelOctets(s.levels);
    VolumesOfLevels(pdu, s.levels, 0, i + 2, m);
  }

  lemma TurnOfSub(pdu: seq<byte>, i: nat, s: SubPdu, m: Reading)
    requires s.Valid() && Readable(s, m) && !m.wrappedIndex
    requires At(pdu, i, Encode(s))
    ensures DemuxTurn(pdu, i, |pdu| - i, m) == Take(EventOf(s), |Encode(s)|)
  {
    assert pdu[i] == Encode(s)[0];
    match s {
      case Ccch(_) => CcchTurnOfSub(pdu, i, s, m);
      case Sdu(_, _) => SduTurnOfSub(pdu, i, s, m);
      case Short(_, _) => ShortTurnOfSub(pdu, i, s, m);
      case Long(_) => LongTurnOfSub(pdu, i, s, m);
    }
  }

  // ------------------------------------------------------------- whole PDUs

  /** From `i` on, successive turns hand over `events` and arrive at `j`. */
  predicate Reads(turns: nat -> Turn, i: nat, events: seq<Event>, j: nat)
    decreases |events|
  {
    if events == [] then i == j
    else turns(i).Take? && turns(i).event == events[0] && Reads(turns, i + turns(i).used, events[1..], j)
  }

  /** Turns taken one after the other are what the whole walk delivers first. */
  lemma {:induction false} WalkReads(turns: nat -> Turn, i: nat, before: seq<Event>, events: seq<Event>, j: nat,
                                     end: nat)
    requires Reads(turns, i, events, j) && j <= end
    ensures i <= j
    ensures Prepend(before, Walk(turns, i, end)) == Prepend(before + events, Walk(turns, j, end))
    decreases |events|
  {
    if events == [] {
      assert before + events == before;
    } else {
      WalkReads(turns, i + turns(i).used, before + [turns(i).event], events[1..], j, end);
      WalkStep(turns, i, end, before);
      assert before + [turns(i).event] + events[1..] == before + events;
    }
  }

  /** Wherever a chunk stands, the turn there takes exactly that chunk. */
  ghost predicate TakesChunks(turns: nat -> Turn, pdu: seq<byte>, chunks: seq<seq<byte>>, events: seq<Event>)
    requires |chunks| == |events|
  {
    forall k, at: nat :: 0 <= k < |chunks| && At(pdu, at, chunks[k]) ==>
      turns(at).Take? && turns(at).event == events[k] && turns(at).used == |chunks[k]|
  }

  lemma HeadAndTail(pdu: seq<byte>, i: nat, chunks: seq<seq<byte>>)
    requires chunks != [] && At(pdu, i, Concat(chunks))
    ensures At(pdu, i, chunks[0]) && At(pdu, i + |chunks[0]|, Concat(chunks[1..]))
  {
    var n, len := |chunks[0]|, |Concat(chunks)|;
    assert pdu[i..i + n] == pdu[i..i + len][..n];
    assert pdu[i + n..i + len] == pdu[i..i + len][n..];
  }

  lemma TakesTail(turns: nat -> Turn, pdu: seq<byte>, chunks: seq<seq<byte>>, events: seq<Event>)
    requires |chunks| == |events| > 0 && TakesChunks(turns, pdu, chunks, events)
    ensures TakesChunks(turns, pdu, chunks[1..], events[1..])
  {
    forall k, at: nat | 0 <= k < |chunks[1..]| && At(pdu, at, chunks[1..][k])
      ensures turns(at).Take? && turns(at).event == events[1..][k] && turns(at).used == |chunks[1..][k]|
    {
      assert At(pdu, at, chunks[k + 1]);
    }
  }

  lemma ReadsOneMore(turns: nat -> Turn, i: nat, used: nat, events: seq<Event>, j: nat)
    requires events != [] && turns(i).Take? && turns(i).event == events[0] && turns(i).used == used
    requires Reads(turns, i + used, events[1..], j)
    ensures Reads(turns, i, events, j)
  {
  }

  lemma {:induction false} ReadsChunks(turns: nat -> Turn, pdu: seq<byte>, i: nat, chunks: seq<seq<byte>>,
                                       events: seq<Event>)
    requires |chunks| == |events| && TakesChunks(turns, pdu, chunks, events)
    requires At(pdu, i, Concat(chunks))
    ensures Reads(turns, i, events, i + |Concat(chunks)|)
    decreases |chunks|
  {
    if chunks != [] {
      HeadAndTail(pdu, i, chunks);
      TakesTail(turns, pdu, chunks, events);
      ReadsChunks(turns, pdu, i + |chunks[0]|, chunks[1..], events[1..]);
      ReadsOneMore(turns, i, |chunks[0]|, events, i + |chunks[0]| + |Concat(chunks[1..])|);
    }
  }

  lemma EncodingTurn(pdu: seq<byte>, at: nat, s: SubPdu, e: seq<byte>, event: Event, m: Reading)
    requires s.Valid() && Readable(s, m) && !m.wrappedIndex && e == Encode(s) && event == EventOf(s)
    requires At(pdu, at, e)
    ensures at < |pdu| && DemuxTurn(pdu, at, |pdu| - at, m) == Take(event, |e|)
  {
    TurnOfSub(pdu, at, s, m);
  }

  lemma TakesEncodings(pdu: seq<byte>, subs: seq<SubPdu>, chunks: seq<seq<byte>>, events: seq<Event>, m: Reading)
    requires AllValid(subs) && (forall k :: 0 <= k < |subs| ==> Readable(subs[k], m)) && !m.wrappedIndex
    requires chunks == Encodings(subs) && events == Events(subs)
    ensures TakesChunks(TurnsOf(pdu, m), pdu, chunks, events)
  {
    forall k, at: nat | 0 <= k < |chunks| && At(pdu, at, chunks[k])
      ensures at < |pdu| && DemuxTurn(pdu, at, |pdu| - at, m) == Take(events[k], |chunks[k]|)
    {
      EncodingTurn(pdu, at, subs[k], chunks[k], events[k], m);
    }
  }

  /** Demultiplexing consumes exactly the encoded sub-PDUs, in order. */
  lemma DemuxOfEncoded(pdu: seq<byte>, i: nat, subs: seq<SubPdu>, m: Reading)
    requires AllValid(subs) && (forall k :: 0 <= k < |subs| ==> Readable(subs[k], m)) && !m.wrappedIndex
    requires At(pdu, i, EncodeAll(subs))
    ensures Reads(TurnsOf(pdu, m), i, Events(subs), i + |EncodeAll(subs)|)
  {
    DemuxOfChunks(pdu, i, subs, Encodings(subs), Events(subs), m);
  }

  lemma DemuxOfChunks(pdu: seq<byte>, i: nat, subs: seq<SubPdu>, chunks: seq<seq<byte>>, events: seq<Event>, m: Reading)
    requires AllValid(subs) && (forall k :: 0 <= k < |subs| ==> Readable(subs[k], m)) && !m.wrappedIndex
    requires chunks == Encodings(subs) && events == Events(subs) && At(pdu, i, Concat(chunks))
    ensures Reads(TurnsOf(pdu, m), i, events, i + |Concat(chunks)|)
  {
    TakesEncodings(pdu, subs, chunks, events, m);
    ReadsChunks(TurnsOf(pdu, m), pdu, i, chunks, events);
  }

  function PaddingEnding(n: nat): Ending {
    if n == 0 then AtEnd else AtPadding
  }

  lemma DemuxOfPadding(pdu: seq<byte>, i: nat, m: Reading)
    requires i <= |pdu| && pdu[i..] == MacMux.Padding(|pdu| - i) && !m.wrappedIndex
    ensures Walk(TurnsOf(pdu, m), i, |pdu|) == Demuxed([], PaddingEnding(|pdu| - i))
  {
    if i < |pdu| {
      assert pdu[i] == pdu[i..][0] == MAC_LCID_PADDING;
      PaddingTurn(pdu, i, m);
      WalkStep(TurnsOf(pdu, m), i, |pdu|, []);
    }
  }

  lemma PaddingTurn(pdu: seq<byte>, i: nat, m: Reading)
    requires i < |pdu| && pdu[i] == MAC_LCID_PADDING && !m.wrappedIndex
    ensures TurnsOf(pdu, m)(i) == Stop(AtPadding)
  {
    assert OctetAt(pdu, i, m) == MAC_LCID_PADDING;
    assert DemuxTurn(pdu, i, |pdu| - i, m) == Stop(AtPadding);
  }

  /** Every uplink PDU of handled sub-PDUs, padded or exact, is read back sub-PDU by sub-PDU. */
  lemma DemuxInvertsEncode(subs: seq<SubPdu>, pad: nat)
    requires AllValid(subs)
    ensures var pdu := EncodeAll(subs) + MacMux.Padding(pad);
      Demux(pdu, INTENDED) == Demuxed(Events(subs), PaddingEnding(pad))
  {
    PaddedPdu(subs, pad, INTENDED);
  }

  lemma PaddedPdu(subs: seq<SubPdu>, pad: nat, m: Reading)
    requires AllValid(subs) && (forall k :: 0 <= k < |subs| ==> Readable(subs[k], m)) && !m.wrappedIndex
    ensures var pdu := EncodeAll(subs) + MacMux.Padding(pad);
      Demux(pdu, m) == Demuxed(Events(subs), PaddingEnding(pad))
  {
    var body := EncodeAll(subs);
    PaddedBody(body + MacMux.Padding(pad), body, subs, m);
  }

  lemma PaddedBody(pdu: seq<byte>, body: seq<byte>, subs: seq<SubPdu>, m: Reading)
    requires AllValid(subs) && (forall k :: 0 <= k < |subs| ==> Readable(subs[k], m)) && !m.wrappedIndex
    requires body == EncodeAll(subs) && At(pdu, 0, body)
    requires pdu[|body|..] == MacMux.Padding(|pdu| - |body|)
    ensures Demux(pdu, m) == Demuxed(Events(subs), PaddingEnding(|pdu| - |body|))
  {
    DemuxOfEncoded(pdu, 0, subs, m);
    WalkReads(TurnsOf(pdu, m), 0, [], Events(subs), |body|, |pdu|);
    DemuxOfPadding(pdu, |body|, m);
    WalkStep(TurnsOf(pdu, m), 0, |pdu|, []);
    assert [] + Events(subs) + [] == Events(subs);
  }

  // --------------------------------------------------- what the source multiplexes

  /** SDUs on dedicated logical channels that fit a transport block. */
  predicate Muxable(sdus: seq<MacMux.MacSdu>, tbSize: nat) {
    && (forall k :: 0 <= k < |sdus| ==> sdus[k].Valid() && 1 <= sdus[k].lcid <= MAC_LCID_MAX)
    && |MacMux.AllCeOctets([]) + MacMux.AllSduOctets(sdus)| <= tbSize
  }

  function Subs(sdus: seq<MacMux.MacSdu>): (r: seq<SubPdu>)
    ensures |r| == |sdus|
  {
    seq(|sdus|, k requires 0 <= k < |sdus| => Sdu(sdus[k].lcid, sdus[k].data))
  }

  /** Each SDU delivered once, in order, on its channel, ending at the padding or the exact end. */
  function Delivered(sdus: seq<MacMux.MacSdu>, tbSize: nat): Demuxed
    requires Muxable(sdus, tbSize)
  {
    Demuxed(Events(Subs(sdus)), PaddingEnding(tbSize - |MacMux.AllSduOctets(sdus)|))
  }

  function SduChunks(sdus: seq<MacMux.MacSdu>): (r: seq<seq<byte>>)
    requires forall k :: 0 <= k < |sdus| ==> sdus[k].Valid()
    ensures |r| == |sdus|
  {
    seq(|sdus|, k requires 0 <= k < |sdus| => MacMux.SduOctets(sdus[k]))
  }

  lemma {:induction false} BodyIsConcat(sdus: seq<MacMux.MacSdu>)
    requires forall k :: 0 <= k < |sdus| ==> sdus[k].Valid()
    ensures Concat(SduChunks(sdus)) == MacMux.AllSduOctets(sdus)
  {
    if sdus != [] {
      var init, last := sdus[..|sdus| - 1], MacMux.SduOctets(sdus[|sdus| - 1]);
      BodyIsConcat(init);
      assert SduChunks(sdus) == SduChunks(init) + [last];
      ConcatSnoc(SduChunks(init), last);
    }
  }

  lemma ConcatSnoc(chunks: seq<seq<byte>>, last: seq<byte>)
    ensures Concat(chunks + [last]) == Concat(chunks) + last
  {
    ConcatSplit(chunks, [last]);
    assert [last][1..] == [];
  }

  /** The multiplexer writes an SDU the way the standard encodes it. */
  lemma SduIsEncode(sdus: seq<MacMux.MacSdu>)
    requires forall k :: 0 <= k < |sdus| ==> sdus[k].Valid() && 1 <= sdus[k].lcid <= MAC_LCID_MAX
    ensures AllValid(Subs(sdus)) && Encodings(Subs(sdus)) == SduChunks(sdus)
  {
    forall k | 0 <= k < |sdus| ensures Encodings(Subs(sdus))[k] == SduChunks(sdus)[k] {
      assert Subs(sdus)[k] == Sdu(sdus[k].lcid, sdus[k].data);
    }
  }

  lemma BodyIsEncodeAll(sdus: seq<MacMux.MacSdu>)
    requires forall k :: 0 <= k < |sdus| ==> sdus[k].Valid() && 1 <= sdus[k].lcid <= MAC_LCID_MAX
    ensures AllValid(Subs(sdus)) && EncodeAll(Subs(sdus)) == MacMux.AllSduOctets(sdus)
  {
    BodyIsConcat(sdus);
    SduIsEncode(sdus);
  }

  lemma {:induction false} ConcatSplit(a: seq<seq<byte>>, b: seq<seq<byte>>)
    ensures Concat(a + b) == Concat(a) + Concat(b)
  {
    if a == [] {
      assert a + b == b;
    } else {
      ConcatSplit(a[1..], b);
      assert (a + b)[1..] == a[1..] + b;
      Associate(a[0], Concat(a[1..]), Concat(b));
    }
  }

  lemma MuxIsEncode(sdus: seq<MacMux.MacSdu>, tbSize: nat)
    requires Muxable(sdus, tbSize)
    ensures AllValid(Subs(sdus))
    ensures MacMux.MuxPdu([], sdus, tbSize)
         == EncodeAll(Subs(sdus)) + MacMux.Padding(tbSize - |MacMux.AllSduOctets(sdus)|)
  {
    BodyIsEncodeAll(sdus);
    assert MacMux.AllCeOctets([]) + MacMux.AllSduOctets(sdus) == MacMux.AllSduOctets(sdus);
  }

  lemma ReadableDelivered(sdus: seq<MacMux.MacSdu>, tbSize: nat, m: Reading)
    requires Muxable(sdus, tbSize) && !m.wrappedIndex && forall k :: 0 <= k < |sdus| ==> Readable(Subs(sdus)[k], m)
    ensures Demux(MacMux.MuxPdu([], sdus, tbSize), m) == Delivered(sdus, tbSize)
  {
    MuxIsEncode(sdus, tbSize);
    PaddedIs(MacMux.MuxPdu([], sdus, tbSize), Subs(sdus), tbSize - |MacMux.AllSduOctets(sdus)|, m);
  }

  lemma PaddedIs(pdu: seq<byte>, subs: seq<SubPdu>, pad: nat, m: Reading)
    requires AllValid(subs) && (forall k :: 0 <= k < |subs| ==> Readable(subs[k], m)) && !m.wrappedIndex
    requires pdu == EncodeAll(subs) + MacMux.Padding(pad)
    ensures Demux(pdu, m) == Demuxed(Events(subs), PaddingEnding(pad))
  {
    PaddedPdu(subs, pad, m);
  }

  /** With the length read as intended, demultiplexing undoes multiplexing on everything that fits. */
  lemma MuxThenDemux(sdus: seq<MacMux.MacSdu>, tbSize: nat)
    requires Muxable(sdus, tbSize)
    ensures Demux(MacMux.MuxPdu([], sdus, tbSize), INTENDED) == Delivered(sdus, tbSize)
  {
    ReadableDelivered(sdus, tbSize, INTENDED);
  }

  /** With the length read as coded, exactly the PDUs without a 16-bit length survive. */
  lemma MuxThenDemuxCoded(sdus: seq<MacMux.MacSdu>, tbSize: nat)
    requires Muxable(sdus, tbSize)
    ensures Demux(MacMux.MuxPdu([], sdus, tbSize), CODED_LENGTH_ONLY) == Delivered(sdus, tbSize)
      <==> forall k :: 0 <= k < |sdus| ==> |sdus[k].data| <= 255
  {
    if forall k :: 0 <= k < |sdus| ==> |sdus[k].data| <= 255 {
      ShortSdusDelivered(sdus, tbSize);
    } else {
      var k := FirstLong(sdus);
      LongSduGarbled(sdus, k, tbSize);
    }
  }

  lemma ShortSdusDelivered(sdus: seq<MacMux.MacSdu>, tbSize: nat)
    requires Muxable(sdus, tbSize) && forall k :: 0 <= k < |sdus| ==> |sdus[k].data| <= 255
    ensures Demux(MacMux.MuxPdu([], sdus, tbSize), CODED_LENGTH_ONLY) == Delivered(sdus, tbSize)
  {
    forall k | 0 <= k < |sdus| ensures Readable(Subs(sdus)[k], CODED_LENGTH_ONLY) {
    }
    ReadableDelivered(sdus, tbSize, CODED_LENGTH_ONLY);
  }

  lemma {:induction false} FirstLong(sdus: seq<MacMux.MacSdu>) returns (k: nat)
    requires exists j :: 0 <= j < |sdus| && |sdus[j].data| > 255
    ensures k < |sdus| && |sdus[k].data| > 255
    ensures forall j :: 0 <= j < k ==> |sdus[j].data| <= 255
  {
    k := 0;
    while |sdus[k].data| <= 255
      invariant k < |sdus|
      invariant forall j :: 0 <= j < k ==> |sdus[j].data| <= 255
      invariant exists j :: k <= j < |sdus| && |sdus[j].data| > 255
      decreases |sdus| - k
    {
      k := k + 1;
    }
  }

  // An SDU with a 16-bit length is delivered cut to the high octet of that length.
  lemma GarbledTurn(pdu: seq<byte>, i: nat, s: SubPdu)
    requires s.Sdu? && s.Valid() && |s.data| > 255
    requires At(pdu, i, Encode(s))
    ensures var t := DemuxTurn(pdu, i, |pdu| - i, CODED_LENGTH_ONLY); t.Take? && t.event != EventOf(s)
  {
    var e := Encode(s);
    assert pdu[i] == e[0] && pdu[i + 1] == e[1];
    var t := DemuxTurn(pdu, i, |pdu| - i, CODED_LENGTH_ONLY);
    assert t == SduTurn(pdu, i, |pdu| - i, s.lcid, CODED_LENGTH_ONLY);
    assert |t.event.data| == |s.data| / 256;
  }

  lemma LongSduGarbled(sdus: seq<MacMux.MacSdu>, k: nat, tbSize: nat)
    requires Muxable(sdus, tbSize) && k < |sdus| && |sdus[k].data| > 255
    requires forall j :: 0 <= j < k ==> |sdus[j].data| <= 255
    ensures Demux(MacMux.MuxPdu([], sdus, tbSize), CODED_LENGTH_ONLY) != Delivered(sdus, tbSize)
  {
    MuxIsEncode(sdus, tbSize);
    GarbledAt(MacMux.MuxPdu([], sdus, tbSize), Subs(sdus), k);
    assert Events(Subs(sdus))[k] == EventOf(Subs(sdus)[k]);
  }

  lemma GarbledAt(pdu: seq<byte>, subs: seq<SubPdu>, k: nat)
    requires AllValid(subs) && k < |subs| && subs[k].Sdu? && |subs[k].data| > 255
    requires forall j :: 0 <= j < k ==> Readable(subs[j], CODED_LENGTH_ONLY)
    requires At(pdu, 0, EncodeAll(subs))
    ensures var events := Demux(pdu, CODED_LENGTH_ONLY).events; k < |events| && events[k] != EventOf(subs[k])
  {
    var i := PrefixReads(pdu, subs, k);
    GarbledTurn(pdu, i, subs[k]);
    EventAfter(TurnsOf(pdu, CODED_LENGTH_ONLY), 0, Events(subs[..k]), i, |pdu|);
  }

  lemma PrefixReads(pdu: seq<byte>, subs: seq<SubPdu>, k: nat) returns (i: nat)
    requires AllValid(subs) && k < |subs| && At(pdu, 0, EncodeAll(subs))
    requires forall j :: 0 <= j < k ==> Readable(subs[j], CODED_LENGTH_ONLY)
    ensures At(pdu, i, Encode(subs[k])) && Reads(TurnsOf(pdu, CODED_LENGTH_ONLY), 0, Events(subs[..k]), i)
  {
    i := PrefixAndNext(pdu, subs, k);
    DemuxOfEncoded(pdu, 0, subs[..k], CODED_LENGTH_ONLY);
  }

  // What the turn after `events` hands over is the next event of the walk.
  lemma {:induction false} EventAfter(turns: nat -> Turn, start: nat, events: seq<Event>, i: nat, end: nat)
    requires i < end && Reads(turns, start, events, i) && turns(i).Take?
    ensures start <= i
    ensures var d := Walk(turns, start, end).events; |events| < |d| && d[|events|] == turns(i).event
    decreases |events|
  {
    if events != [] {
      EventAfter(turns, start + turns(start).used, events[1..], i, end);
    }
  }

  lemma PrefixAndNext(pdu: seq<byte>, subs: seq<SubPdu>, k: nat) returns (i: nat)
    requires AllValid(subs) && k < |subs| && At(pdu, 0, EncodeAll(subs))
    ensures AllValid(subs[..k]) && i == |EncodeAll(subs[..k])|
    ensures At(pdu, 0, EncodeAll(subs[..k])) && At(pdu, i, Encode(subs[k]))
  {
    var a, b := Encodings(subs[..k]), Encodings(subs)[k..];
    i := |EncodeAll(subs[..k])|;
    assert Encodings(subs) == a + b;
    ConcatSplit(a, b);
    var all := EncodeAll(subs);
    assert pdu[0..i] == pdu[0..|all|][..i] && pdu[i..|all|] == pdu[0..|all|][i..];
    HeadAndTail(pdu, i, b);
  }

  // ----------------------------------------------- as coded, with the 8-bit index

  lemma {:induction false} SameTurnsSameWalk(a: nat -> Turn, b: nat -> Turn, i: nat, end: nat)
    requires forall k: nat :: k < end ==> a(k) == b(k)
    ensures Walk(a, i, end) == Walk(b, i, end)
    decreases end - i
  {
    if i < end && a(i).Take? {
      SameTurnsSameWalk(a, b, i + a(i).used, end);
    }
  }

  lemma ShortPduIndexNeverWraps(pdu: seq<byte>, m: Reading)
    requires |pdu| <= 256 && m.wrappedIndex
    ensures Demux(pdu, m) == Demux(pdu, m.(wrappedIndex := false))
  {
    var a, b := TurnsOf(pdu, m), TurnsOf(pdu, m.(wrappedIndex := false));
    forall k: nat | k < |pdu| ensures a(k) == b(k) {
      TurnIndexNeverWraps(pdu, k, |pdu| - k, m);
    }
    SameTurnsSameWalk(a, b, 0, |pdu|);
  }

  lemma {:induction false} VolumesIndexNeverWraps(pdu: seq<byte>, bitmap: nat, g: nat, i: nat, m: Reading)
    requires m.wrappedIndex && i + GroupCount(bitmap) <= |pdu| && i + GroupCount(bitmap) <= 256
    ensures Volumes(pdu, bitmap, g, i, m) == Volumes(pdu, bitmap, g, i, m.(wrappedIndex := false))
  {
    if bitmap > 0 {
      VolumesIndexNeverWraps(pdu, bitmap / 2, g + 1, i + bitmap % 2, m);
    }
  }

  lemma PayloadIndexNeverWraps(pdu: seq<byte>, i: nat, n: nat, m: Reading)
    requires m.wrappedIndex && i + n <= |pdu| && i + n <= 256
    ensures Payload(pdu, i, n, m) == Payload(pdu, i, n, m.(wrappedIndex := false))
  {
    if i == 256 {
      assert n == 0;
    }
  }

  lemma TurnIndexNeverWraps(pdu: seq<byte>, i: nat, len: nat, m: Reading)
    requires i + len == |pdu| <= 256 && m.wrappedIndex && len > 0
    ensures DemuxTurn(pdu, i, len, m) == DemuxTurn(pdu, i, len, m.(wrappedIndex := false))
  {
    var m' := m.(wrappedIndex := false);
    var lcid := LcidOf(OctetAt(pdu, i, m));
    if lcid == MAC_LCID_CCCH {
      if len >= 7 { PayloadIndexNeverWraps(pdu, i + 1, 6, m); }
    } else if lcid <= MAC_LCID_MAX {
      var shape := SduShape(pdu, i, len, m);
      assert shape == SduShape(pdu, i, len, m');
      if shape.Some? { PayloadIndexNeverWraps(pdu, i + shape.value.0, shape.value.1, m); }
    } else if lcid == MAC_LCID_LONG_BSR && len >= 2 {
      var bitmap := OctetAt(pdu, i + 1, m);
      if len >= 2 + GroupCount(bitmap) { VolumesIndexNeverWraps(pdu, bitmap, 0, i + 2, m); }
    }
  }

  /** Nor does it in a sub-PDU that ends within the first 256 octets of a longer PDU. */
  lemma EarlyTurnNeverWraps(pdu: seq<byte>, i: nat, len: nat, m: Reading)
    requires i + len == |pdu| && len > 0 && m.wrappedIndex
    requires DemuxTurn(pdu, i, len, m.(wrappedIndex := false)).Take?
    requires i + DemuxTurn(pdu, i, len, m.(wrappedIndex := false)).used <= 256
    ensures DemuxTurn(pdu, i, len, m) == DemuxTurn(pdu, i, len, m.(wrappedIndex := false))
  {
    var m' := m.(wrappedIndex := false);
    assert OctetAt(pdu, i, m) == OctetAt(pdu, i, m');
    var lcid := LcidOf(OctetAt(pdu, i, m));
    if lcid == MAC_LCID_CCCH {
      PayloadIndexNeverWraps(pdu, i + 1, 6, m);
    } else if lcid <= MAC_LCID_MAX {
      EarlySduNeverWraps(pdu, i, len, lcid, m);
    } else if lcid == MAC_LCID_LONG_BSR {
      VolumesIndexNeverWraps(pdu, OctetAt(pdu, i + 1, m), 0, i + 2, m);
    }
  }

  lemma EarlySduNeverWraps(pdu: seq<byte>, i: nat, len: nat, lcid: nat, m: Reading)
    requires i + len == |pdu| && len > 0 && m.wrappedIndex
    requires SduTurn(pdu, i, len, lcid, m.(wrappedIndex := false)).Take?
    requires i + SduTurn(pdu, i, len, lcid, m.(wrappedIndex := false)).used <= 256
    ensures SduTurn(pdu, i, len, lcid, m) == SduTurn(pdu, i, len, lcid, m.(wrappedIndex := false))
  {
    var m' := m.(wrappedIndex := false);
    var shape := SduShape(pdu, i, len, m').value;
    assert SduShape(pdu, i, len, m) == Some(shape);
    PayloadIndexNeverWraps(pdu, i + shape.0, shape.1, m);
  }

  lemma {:induction false} ReadsAlike(a: nat -> Turn, b: nat -> Turn, i: nat, events: seq<Event>, j: nat, bound: nat)
    requires Reads(a, i, events, j) && j <= bound
    requires forall k: nat :: a(k).Take? && k + a(k).used <= bound ==> b(k) == a(k)
    ensures i <= j && Reads(b, i, events, j)
    decreases |events|
  {
    if events != [] { ReadsAlike(a, b, i + a(i).used, events[1..], j, bound); }
  }

  lemma SduListReadsAsCoded(sdus: seq<MacMux.MacSdu>, tbSize: nat)
    requires Muxable(sdus, tbSize) && |MacMux.AllSduOctets(sdus)| <= 256
    ensures Reads(TurnsOf(MacMux.MuxPdu([], sdus, tbSize), AS_CODED), 0, Events(Subs(sdus)),
                  |MacMux.AllSduOctets(sdus)|)
  {
    var pdu := MacMux.MuxPdu([], sdus, tbSize);
    var a, b := TurnsOf(pdu, CODED_LENGTH_ONLY), TurnsOf(pdu, AS_CODED);
    MuxIsEncode(sdus, tbSize);
    BodyIsEncodeAll(sdus);
    forall k | 0 <= k < |sdus| ensures Readable(Subs(sdus)[k], CODED_LENGTH_ONLY) {
      EachSduFits(sdus, k);
    }
    DemuxOfEncoded(pdu, 0, Subs(sdus), CODED_LENGTH_ONLY);
    forall k: nat | a(k).Take? && k + a(k).used <= 256 ensures b(k) == a(k) {
      EarlyTurnNeverWraps(pdu, k, |pdu| - k, AS_CODED);
    }
    ReadsAlike(a, b, 0, Events(Subs(sdus)), |MacMux.AllSduOctets(sdus)|, 256);
  }

  /** What the first octet after the body is read as: the padding, or, when the index has come
      round to 0, the first SDU again. */
  lemma TurnAfterBody(sdus: seq<MacMux.MacSdu>, tbSize: nat)
    requires Muxable(sdus, tbSize) && |MacMux.AllSduOctets(sdus)| <= 256 && |MacMux.AllSduOctets(sdus)| < tbSize
    ensures var body := |MacMux.AllSduOctets(sdus)|;
      AfterBody(TurnsOf(MacMux.MuxPdu([], sdus, tbSize), AS_CODED)(body), body)
  {
    var body := MacMux.AllSduOctets(sdus);
    MuxIsBody(sdus, tbSize);
    FirstOctet(sdus);
    TurnAtOctet(body, MacMux.Padding(tbSize - |body|));
  }

  predicate AfterBody(t: Turn, n: nat) {
    if n <= 255 then t == Stop(AtPadding) else t.Take? || t == Stop(Overrun)
  }

  lemma MuxIsBody(sdus: seq<MacMux.MacSdu>, tbSize: nat)
    requires Muxable(sdus, tbSize)
    ensures |MacMux.AllSduOctets(sdus)| <= tbSize
    ensures MacMux.MuxPdu([], sdus, tbSize)
      == MacMux.AllSduOctets(sdus) + MacMux.Padding(tbSize - |MacMux.AllSduOctets(sdus)|)
  {
    assert MacMux.AllCeOctets([]) + MacMux.AllSduOctets(sdus) == MacMux.AllSduOctets(sdus);
  }

  lemma TurnAtOctet(body: seq<byte>, padding: seq<byte>)
    requires |body| <= 256 && padding != [] && padding[0] == MAC_LCID_PADDING && StartsWithSdu(body)
    ensures AfterBody(TurnsOf(body + padding, AS_CODED)(|body|), |body|)
  {
    var pdu := body + padding;
    assert OctetAt(pdu, |body|, AS_CODED) == if |body| <= 255 then padding[0] else body[0];
    assert TurnsOf(pdu, AS_CODED)(|body|) == DemuxTurn(pdu, |body|, |pdu| - |body|, AS_CODED);
  }

  predicate StartsWithSdu(octets: seq<byte>) {
    octets != [] ==> 1 <= LcidOf(octets[0]) <= MAC_LCID_MAX
  }

  lemma OneSduStarts(s: MacMux.MacSdu)
    requires s.Valid() && 1 <= s.lcid <= MAC_LCID_MAX
    ensures StartsWithSdu(MacMux.SduOctets(s))
  {
    assert MacMux.SduOctets(s)[0] == MacMux.Subheader(s.lcid, |s.data|)[0];
  }

  lemma StartOfConcat(a: seq<byte>, b: seq<byte>)
    requires StartsWithSdu(a) && StartsWithSdu(b)
    ensures StartsWithSdu(a + b)
  {
    if a != [] { assert (a + b)[0] == a[0]; } else { assert a + b == b; }
  }

  lemma {:induction false} FirstOctet(sdus: seq<MacMux.MacSdu>)
    requires forall k :: 0 <= k < |sdus| ==> sdus[k].Valid() && 1 <= sdus[k].lcid <= MAC_LCID_MAX
    ensures StartsWithSdu(MacMux.AllSduOctets(sdus))
  {
    if sdus != [] {
      FirstOctet(sdus[..|sdus| - 1]);
      OneSduStarts(sdus[|sdus| - 1]);
      StartOfConcat(MacMux.AllSduOctets(sdus[..|sdus| - 1]), MacMux.SduOctets(sdus[|sdus| - 1]));
    }
  }

  /** As built, a list whose SDUs take at most 255 octets is read back on any transport block, and
      one that takes 256 exactly when it fills the block. */
  lemma ShortBodyAsCoded(sdus: seq<MacMux.MacSdu>, tbSize: nat)
    requires Muxable(sdus, tbSize) && |MacMux.AllSduOctets(sdus)| <= 256
    ensures Demux(MacMux.MuxPdu([], sdus, tbSize), AS_CODED) == Delivered(sdus, tbSize)
      <==> |MacMux.AllSduOctets(sdus)| <= 255 || tbSize == 256
  {
    var turns, events := TurnsOf(MacMux.MuxPdu([], sdus, tbSize), AS_CODED), Events(Subs(sdus));
    var body := |MacMux.AllSduOctets(sdus)|;
    SduListReadsAsCoded(sdus, tbSize);
    if body < tbSize { TurnAfterBody(sdus, tbSize); }
    WalkReads(turns, 0, [], events, body, tbSize);
    WalkStep(turns, 0, tbSize, []);
    WalkStep(turns, body, tbSize, events);
    assert [] + events == events && events + [] == events;
  }

  /** The smallest PDU on which the 8-bit index goes wrong: one SDU of 254 octets. */
  function WrapWitness(): seq<MacMux.MacSdu> {
    [MacMux.MacSdu(1, ZeroBytes(254))]
  }

  lemma WrapWitnessPdu(tbSize: nat)
    requires tbSize > 256
    ensures Muxable(WrapWitness(), tbSize) && |MacMux.AllSduOctets(WrapWitness())| == 256
    ensures MacMux.MuxPdu([], WrapWitness(), tbSize)[..2] == [1, 254]
  {
    var sdus := WrapWitness();
    assert sdus[..0] == [];
    assert MacMux.AllSduOctets(sdus) == [] + MacMux.SduOctets(sdus[0]);
    MuxIsEncode(sdus, tbSize);
    BodyIsEncodeAll(sdus);
  }

  // A PDU that starts with the subheader of a 254-octet SDU on channel 1, read at index 256.
  lemma WrappedTurns(pdu: seq<byte>)
    requires |pdu| > 256 && pdu[0] == 1 && pdu[1] == 254
    ensures DemuxTurn(pdu, 0, |pdu|, AS_CODED).Take? && DemuxTurn(pdu, 0, |pdu|, AS_CODED).used == 256
    ensures var t := DemuxTurn(pdu, 256, |pdu| - 256, AS_CODED); t.Take? || t == Stop(Overrun)
  {
    assert OctetAt(pdu, 256, AS_CODED) == 1;
    assert LcidOf(1) == 1 && !LongLength(1, AS_CODED);
  }

  lemma WrapWitnessFails(tbSize: nat)
    requires tbSize > 256
    ensures Muxable(WrapWitness(), tbSize)
    ensures Demux(MacMux.MuxPdu([], WrapWitness(), tbSize), AS_CODED) != Delivered(WrapWitness(), tbSize)
  {
    WrapWitnessPdu(tbSize);
    var pdu := MacMux.MuxPdu([], WrapWitness(), tbSize);
    assert pdu[0] == pdu[..2][0] && pdu[1] == pdu[..2][1];
    WrappedTurns(pdu);
    var turns := TurnsOf(pdu, AS_CODED);
    assert Reads(turns, 0, [turns(0).event], 256);
    WalkReads(turns, 0, [], [turns(0).event], 256, tbSize);
    WalkStep(turns, 0, tbSize, []);
    WalkStep(turns, 256, tbSize, [turns(0).event]);
  }

  /** As built, the round trip holds for every SDU list exactly on transport blocks of at most 256 octets. */
  lemma MuxThenDemuxAsCoded(tbSize: nat)
    ensures (forall sdus :: Muxable(sdus, tbSize) ==>
               Demux(MacMux.MuxPdu([], sdus, tbSize), AS_CODED) == Delivered(sdus, tbSize))
      <==> tbSize <= 256
  {
    if tbSize > 256 {
      WrapWitnessFails(tbSize);
    } else {
      forall sdus: seq<MacMux.MacSdu> | Muxable(sdus, tbSize)
        ensures Demux(MacMux.MuxPdu([], sdus, tbSize), AS_CODED) == Delivered(sdus, tbSize)
      {
        ShortPduIndexNeverWraps(MacMux.MuxPdu([], sdus, tbSize), AS_CODED);
        forall k | 0 <= k < |sdus| ensures |sdus[k].data| <= 255 {
          EachSduFits(sdus, k);
        }
        MuxThenDemuxCoded(sdus, tbSize);
      }
    }
  }

  lemma EachSduFits(sdus: seq<MacMux.MacSdu>, k: nat)
    requires k < |sdus| && forall j :: 0 <= j < |sdus| ==> sdus[j].Valid() && 1 <= sdus[j].lcid <= MAC_LCID_MAX
    ensures |sdus[k].data| + 2 <= |MacMux.AllSduOctets(sdus)|
  {
    assert sdus[..k + 1][..k] == sdus[..k];
    MacMux.SduPrefix(sdus, k + 1);
  }
}
