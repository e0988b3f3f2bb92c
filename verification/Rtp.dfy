/** The RTP fixed header, CSRC list, header extension and padding
    (RFC 3550 sections 5.1 and 5.3.1), as parse_rtp reads them, and the sender's
    side of the same format. */
module Rtp {
  import opened Serial

  datatype Packet = Packet(seqNo: u16, ts: u32, marker: bool, payload: seq<byte>)

  function Be16(hi: byte, lo: byte): u16 { hi * 0x100 + lo }

  function Be32(a: byte, b: byte, c: byte, d: byte): u32
  {
    a * 0x100_0000 + b * 0x1_0000 + c * 0x100 + d
  }

  /** Length of the fixed header, the CSRC list and the extension, if they fit. */
  function HeaderLength(b: seq<byte>): (r: Option<nat>)
    ensures r.Some? ==> 12 <= r.value <= |b|
  {
    if |b| < 12 then None
    else
      var header := 12 + 4 * (b[0] % 16);
      if |b| < header then None
      else if b[0] / 16 % 2 == 0 then Some(header)
      else if |b| < header + 4 then None
      else
        var extended := header + 4 + 4 * Be16(b[header + 2], b[header + 3]);
        if |b| < extended then None else Some(extended)
  }

  /** Payload bytes left once the padding, if announced, is stripped; a padding
      count longer than the payload leaves nothing. */
  function PayloadLength(b: seq<byte>, header: nat): (plen: nat)
    requires 12 <= header <= |b|
    ensures plen <= |b| - header
  {
    var plen := |b| - header;
    if b[0] / 32 % 2 == 1 && plen > 0 then
      var pad := b[|b| - 1];
      if pad <= plen then plen - pad else 0
    else plen
  }

  function Parse(b: seq<byte>): Option<Packet>
  {
    match HeaderLength(b)
    case None => None
    case Some(header) =>
      var plen := PayloadLength(b, header);
      Some(Packet(Be16(b[2], b[3]), Be32(b[4], b[5], b[6], b[7]), b[1] >= 0x80,
                  b[header..header + plen]))
  }

  // ---- the sender -----------------------------------------------------------

  /** What RFC 3550 lets a sender choose around a payload.  `extension` is the
      profile word's two bytes and the extension body; `padding` is the whole
      padding area, whose last byte is its length. */
  datatype Header = Header(
    version: int, payloadType: int, seqNo: u16, ts: u32, marker: bool, ssrc: seq<byte>,
    csrcs: seq<byte>, extension: Option<(seq<byte>, seq<byte>)>, padding: seq<byte>)
  {
    predicate Valid() {
      && 0 <= version < 4 && 0 <= payloadType < 128
      && |ssrc| == 4 && |csrcs| % 4 == 0 && |csrcs| <= 60
      && (extension.Some? ==>
            |extension.value.0| == 2 && |extension.value.1| % 4 == 0
            && |extension.value.1| < 4 * 0x1_0000)
      && (padding != [] ==> padding[|padding| - 1] == |padding|)
    }
  }

  function ToBe16(x: u16): seq<byte> { [x / 0x100, x % 0x100] }

  function FixedHeader(h: Header): (b: seq<byte>)
    requires h.Valid()
    ensures |b| == 12
  {
    var t1 := h.ts / 0x100;
    var t2 := t1 / 0x100;
    [h.version * 64 + (if h.padding != [] then 32 else 0)
     + (if h.extension.Some? then 16 else 0) + |h.csrcs| / 4,
     (if h.marker then 128 else 0) + h.payloadType,
     h.seqNo / 0x100, h.seqNo % 0x100,
     t2 / 0x100, t2 % 0x100, t1 % 0x100, h.ts % 0x100,
     h.ssrc[0], h.ssrc[1], h.ssrc[2], h.ssrc[3]]
  }

  function ExtensionBytes(h: Header): seq<byte>
    requires h.Valid()
  {
    match h.extension
    case None => []
    case Some(e) => e.0 + ToBe16(|e.1| / 4) + e.1
  }

  /** A whole RTP packet around `payload`. */
  function Build(h: Header, payload: seq<byte>): seq<byte>
    requires h.Valid()
  {
    FixedHeader(h) + h.csrcs + ExtensionBytes(h) + payload + h.padding
  }

  lemma FixedHeaderFields(h: Header)
    requires h.Valid()
    ensures
      var b := FixedHeader(h);
      && b[0] % 16 == |h.csrcs| / 4
      && (b[0] / 16 % 2 == 1 <==> h.extension.Some?)
      && (b[0] / 32 % 2 == 1 <==> h.padding != [])
      && (b[1] >= 0x80 <==> h.marker)
      && Be16(b[2], b[3]) == h.seqNo
      && Be32(b[4], b[5], b[6], b[7]) == h.ts
  {
    var t1 := h.ts / 0x100;
    assert h.ts == t1 * 0x100 + h.ts % 0x100;
    assert t1 == t1 / 0x100 * 0x100 + t1 % 0x100;
  }

  lemma BuildHeaderLength(h: Header, payload: seq<byte>)
    requires h.Valid()
    ensures HeaderLength(Build(h, payload)) == Some(12 + |h.csrcs| + |ExtensionBytes(h)|)
  {
    var b := Build(h, payload);
    var header := 12 + |h.csrcs|;
    FixedHeaderFields(h);
    assert b[0] == FixedHeader(h)[0];
    if h.extension.Some? {
      var body := h.extension.value.1;
      var front := FixedHeader(h) + h.csrcs;
      var tail := ToBe16(|body| / 4) + body + payload + h.padding;
      assert b == front + (h.extension.value.0 + tail);
      assert b[header + 2] == tail[0] && b[header + 3] == tail[1];
    }
  }

  /** Whatever CSRC list, extension and padding the sender adds, the receiver gets
      back exactly the sequence number, timestamp, marker bit and payload. */
  lemma ParseBuild(h: Header, payload: seq<byte>)
    requires h.Valid()
    ensures Parse(Build(h, payload)) == Some(Packet(h.seqNo, h.ts, h.marker, payload))
  {
    var b := Build(h, payload);
    var front := FixedHeader(h) + h.csrcs + ExtensionBytes(h);
    BuildHeaderLength(h, payload);
    FixedHeaderFields(h);
    assert b == front + payload + h.padding;
    assert forall i :: 0 <= i < 8 ==> b[i] == front[i] == FixedHeader(h)[i];
    if h.padding != [] {
      assert b[|b| - 1] == h.padding[|h.padding| - 1];
    }
    assert PayloadLength(b, |front|) == |payload|;
    assert b[|front|..|front| + |payload|] == payload;
  }

  // ---- packets nobody built -----------------------------------------------------

  /** What a sender would have chosen to make these bytes, `n` of them before the padding. */
  function Chosen(b: seq<byte>, header: nat, n: nat): Header
    requires 12 <= header <= |b| && header <= n <= |b|
  {
    var fixed := 12 + 4 * (b[0] % 16);
    Header(b[0] / 64, b[1] % 128, Be16(b[2], b[3]), Be32(b[4], b[5], b[6], b[7]), b[1] >= 0x80, b[8..12],
           if fixed <= |b| then b[12..fixed] else [],
           if fixed + 4 <= header then Some((b[fixed..fixed + 2], b[fixed + 4..header])) else None,
           b[n..])
  }

  /** The padding bit is clear, or the last byte counts a padding that fits. */
  predicate PaddingFits(b: seq<byte>, header: nat)
    requires 12 <= header <= |b|
  {
    b[0] / 32 % 2 == 1 ==> header < |b| && 0 < b[|b| - 1] <= |b| - header
  }

  lemma FirstByteAgain(x: byte)
    ensures x == x / 64 * 64 + (if x / 32 % 2 == 1 then 32 else 0) + (if x / 16 % 2 == 1 then 16 else 0) + x % 16
  {
  }

  lemma NumbersAgain(a: byte, b: byte, c: byte, d: byte)
    ensures Be16(a, b) / 0x100 == a && Be16(a, b) % 0x100 == b
    ensures
      var v := Be32(a, b, c, d);
      v / 0x100 / 0x100 / 0x100 == a && v / 0x100 / 0x100 % 0x100 == b && v / 0x100 % 0x100 == c && v % 0x100 == d
  {
    var v := Be32(a, b, c, d);
    assert v / 0x100 == a * 0x1_0000 + b * 0x100 + c && v % 0x100 == d;
    assert v / 0x100 / 0x100 == a * 0x100 + b;
  }

  /** Where the header ends, and whether there is an extension in it. */
  lemma HeaderEnds(b: seq<byte>, header: nat)
    requires HeaderLength(b) == Some(header)
    ensures
      var fixed := 12 + 4 * (b[0] % 16);
      && 12 <= fixed <= header <= |b| && IsFours(|b[12..fixed]|, b[0] % 16, 16)
      && if b[0] / 16 % 2 == 1 then
           fixed + 4 <= header && IsFours(|b[fixed + 4..header]|, Be16(b[fixed + 2], b[fixed + 3]), 0x1_0000)
         else header == fixed
  {
  }

  /** This many bytes are `n` words of four, fewer than `limit`. */
  predicate IsFours(size: nat, n: nat, limit: nat)
  {
    size == 4 * n && n < limit && size / 4 == n && size % 4 == 0
  }

  lemma FixedAgain(b: seq<byte>, header: nat, n: nat)
    requires HeaderLength(b) == Some(header) && header <= n <= |b|
    requires if b[0] / 32 % 2 == 1 then n < |b| && b[|b| - 1] == |b| - n else n == |b|
    ensures Chosen(b, header, n).Valid() && FixedHeader(Chosen(b, header, n)) == b[..12]
  {
    HeaderEnds(b, header);
    ChosenValid(b, header, n);
    FlagsAgain(b, header, n);
    NumbersAgain(b[2], b[3], 0, 0);
    NumbersAgain(b[4], b[5], b[6], b[7]);
    var f := FixedHeader(Chosen(b, header, n));
    assert f[8] == b[8] && f[9] == b[9] && f[10] == b[10] && f[11] == b[11];
    assert forall i :: 0 <= i < 12 ==> f[i] == b[..12][i];
  }

  lemma FlagsAgain(b: seq<byte>, header: nat, n: nat)
    requires HeaderLength(b) == Some(header) && header <= n <= |b| && Chosen(b, header, n).Valid()
    requires if b[0] / 32 % 2 == 1 then n < |b| else n == |b|
    ensures FixedHeader(Chosen(b, header, n))[0] == b[0] && FixedHeader(Chosen(b, header, n))[1] == b[1]
  {
    HeaderEnds(b, header);
    FirstByteIs(Chosen(b, header, n), b[0]);
    SecondByteIs(Chosen(b, header, n), b[1]);
  }

  lemma FirstByteIs(h: Header, x: byte)
    requires h.Valid() && h.version == x / 64 && |h.csrcs| / 4 == x % 16
    requires (h.padding != [] <==> x / 32 % 2 == 1) && (h.extension.Some? <==> x / 16 % 2 == 1)
    ensures FixedHeader(h)[0] == x
  {
    FirstByteAgain(x);
  }

  lemma SecondByteIs(h: Header, x: byte)
    requires h.Valid() && h.payloadType == x % 128 && (h.marker <==> x >= 128)
    ensures FixedHeader(h)[1] == x
  {
  }

  lemma ChosenValid(b: seq<byte>, header: nat, n: nat)
    requires HeaderLength(b) == Some(header) && header <= n <= |b|
    requires if b[0] / 32 % 2 == 1 then n < |b| && b[|b| - 1] == |b| - n else n == |b|
    ensures Chosen(b, header, n).Valid()
  {
    HeaderEnds(b, header);
    var h := Chosen(b, header, n);
    assert IsFours(|h.csrcs|, b[0] % 16, 16);
    assert h.padding != [] ==> h.padding[|h.padding| - 1] == b[|b| - 1];
  }

  lemma ExtensionAgain(b: seq<byte>, header: nat, n: nat)
    requires HeaderLength(b) == Some(header) && header <= n <= |b| && Chosen(b, header, n).Valid()
    ensures ExtensionBytes(Chosen(b, header, n)) == b[12 + 4 * (b[0] % 16)..header]
  {
    HeaderEnds(b, header);
    var fixed := 12 + 4 * (b[0] % 16);
    if fixed < header {
      NumbersAgain(b[fixed + 2], b[fixed + 3], 0, 0);
      ThreePieces(b, fixed, header, ToBe16(|b[fixed + 4..header]| / 4));
    }
  }

  lemma ThreePieces(b: seq<byte>, i: nat, j: nat, two: seq<byte>)
    requires i + 4 <= j <= |b| && two == [b[i + 2], b[i + 3]]
    ensures b[i..i + 2] + two + b[i + 4..j] == b[i..j]
  {
  }

  /** Cut at four places, these bytes are put together again. */
  lemma Pieces(b: seq<byte>, i: nat, j: nat, k: nat, l: nat)
    requires i <= j <= k <= l <= |b|
    ensures b[..i] + b[i..j] + b[j..k] + b[k..l] + b[l..] == b
  {
  }

  /** On any bytes: what is parsed is a packet some sender built, unless its padding is bad;
      then the payload is what follows the header or nothing, as the count is zero or too
      large. */
  lemma ParsedWasBuilt(b: seq<byte>, header: nat)
    requires HeaderLength(b) == Some(header)
    ensures
      var p := Parse(b).value;
      var h := Chosen(b, header, header + |p.payload|);
      if PaddingFits(b, header) then
        h.Valid() && Build(h, p.payload) == b && h.seqNo == p.seqNo && h.ts == p.ts && h.marker == p.marker
      else p.payload == if header < |b| && b[|b| - 1] == 0 then b[header..] else []
  {
    if PaddingFits(b, header) {
      BuiltAgain(b, header, header + PayloadLength(b, header));
    }
  }

  lemma BuiltAgain(b: seq<byte>, header: nat, n: nat)
    requires HeaderLength(b) == Some(header) && header <= n <= |b|
    requires if b[0] / 32 % 2 == 1 then n < |b| && b[|b| - 1] == |b| - n else n == |b|
    ensures Chosen(b, header, n).Valid() && Build(Chosen(b, header, n), b[header..n]) == b
  {
    HeaderEnds(b, header);
    FixedAgain(b, header, n);
    ExtensionAgain(b, header, n);
    Pieces(b, 12, 12 + 4 * (b[0] % 16), header, n);
  }
}
