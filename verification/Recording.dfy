/** The recording format: a header, then length-prefixed records, little-endian.  The
    recorder never blocks its callers; the reader must cope with a file cut anywhere. */
module Recording {
  import opened Serial

  const MAX_QUEUED := 256
  const MAX_RECORD_BYTES := 8 * 1024 * 1024

  datatype Record = Record(kind: byte, seqNo: u32, ts: u64, data: seq<byte>)

  function Add64(a: u64, k: u64): u64 { if a + k < TWO64 then a + k else a + k - TWO64 }

  // ---- little-endian numbers -------------------------------------------------------

  function PutU32(v: u32): (b: seq<byte>)
    ensures |b| == 4
  {
    var v1 := v / 0x100;
    var v2 := v1 / 0x100;
    [v % 0x100, v1 % 0x100, v2 % 0x100, v2 / 0x100]
  }

  function PutU64(v: u64): (b: seq<byte>)
    ensures |b| == 8
  {
    PutU32(v % 0x1_0000_0000) + PutU32(v / 0x1_0000_0000)
  }

  function Le32(a: byte, b: byte, c: byte, d: byte): u32
  {
    a + b * 0x100 + c * 0x1_0000 + d * 0x100_0000
  }

  function GetU32(b: seq<byte>, at: nat): u32
    requires at + 4 <= |b|
  {
    Le32(b[at], b[at + 1], b[at + 2], b[at + 3])
  }

  function GetU64(b: seq<byte>, at: nat): u64
    requires at + 8 <= |b|
  {
    GetU32(b, at) + GetU32(b, at + 4) * 0x1_0000_0000
  }

  lemma PutGetU32(b: seq<byte>, at: nat, v: u32)
    requires at + 4 <= |b| && b[at..at + 4] == PutU32(v)
    ensures GetU32(b, at) == v
  {
    var p := b[at..at + 4];
    assert b[at] == p[0] && b[at + 1] == p[1] && b[at + 2] == p[2] && b[at + 3] == p[3];
  }

  lemma PutGetU64(b: seq<byte>, at: nat, v: u64)
    requires at + 8 <= |b| && b[at..at + 8] == PutU64(v)
    ensures GetU64(b, at) == v
  {
    var p := b[at..at + 8];
    assert b[at..at + 4] == p[..4] == PutU32(v % 0x1_0000_0000);
    assert b[at + 4..at + 8] == p[4..] == PutU32(v / 0x1_0000_0000);
    PutGetU32(b, at, v % 0x1_0000_0000);
    PutGetU32(b, at + 4, v / 0x1_0000_0000);
  }

  // ---- the file ------------------------------------------------------------------------

  const MAGIC: seq<byte> := [0x58, 0x43, 0x41, 0x55]
  const VERSION: u32 := 1

  function FileHeader(): (b: seq<byte>)
    ensures |b| == 8
  {
    MAGIC + PutU32(VERSION)
  }

  function RecordHeader(r: Record): (b: seq<byte>)
    ensures |b| == 20
  {
    [r.kind, 0, 0, 0] + PutU32(r.seqNo) + PutU64(r.ts) + PutU32(Wrap32(|r.data|))
  }

  function Encode(r: Record): (b: seq<byte>)
    ensures |b| == 20 + |r.data|
  {
    RecordHeader(r) + r.data
  }

  function EncodeAll(rs: seq<Record>): seq<byte>
  {
    if rs == [] then [] else EncodeAll(rs[..|rs| - 1]) + Encode(rs[|rs| - 1])
  }

  function FileOf(rs: seq<Record>): seq<byte> { FileHeader() + EncodeAll(rs) }

  // ---- reading ---------------------------------------------------------------------------

  predicate Opens(file: seq<byte>)
  {
    |file| >= 8 && file[..4] == MAGIC && GetU32(file, 4) == VERSION
  }

  /** The record at `pos` and where the next one starts. */
  function Next(file: seq<byte>, pos: nat): (r: Option<(Record, nat)>)
    ensures r.Some? ==> pos < r.value.1 <= |file|
  {
    if pos + 20 > |file| then None
    else
      var size := GetU32(file, pos + 16);
      if size > MAX_RECORD_BYTES || pos + 20 + size > |file| then None
      else Some((RecordAt(file, pos, size), pos + 20 + size))
  }

  function RecordAt(file: seq<byte>, pos: nat, size: nat): Record
    requires pos + 20 + size <= |file|
  {
    Record(file[pos], GetU32(file, pos + 4), GetU64(file, pos + 8), file[pos + 20..pos + 20 + size])
  }

  /** Where a refused read leaves the file: at its end, or past the header that asks for
      too much. */
  function Refused(file: seq<byte>, pos: nat): nat
  {
    if pos + 20 <= |file| && GetU32(file, pos + 16) > MAX_RECORD_BYTES then pos + 20
    else if pos < |file| then |file| else pos
  }

  function ReadFrom(file: seq<byte>, pos: nat): seq<Record>
    decreases |file| - pos
  {
    match Next(file, pos)
    case None => []
    case Some((r, next)) => [r] + ReadFrom(file, next)
  }

  class AuReader {
    var file: seq<byte>
    var pos: nat
    var isOpen: bool

    method Open(bytes: seq<byte>) returns (ok: bool)
      modifies this
      ensures ok <==> Opens(bytes)
      ensures isOpen == ok && file == bytes && pos == 8
    {
      file, pos := bytes, 8;
      ok := |bytes| >= 8 && bytes[..4] == MAGIC && GetU32(bytes, 4) == VERSION;
      isOpen := ok;
    }

    method ReadNext() returns (r: Option<Record>)
      modifies this`pos
      ensures !isOpen ==> r == None && pos == old(pos)
      ensures isOpen ==>
        match Next(file, old(pos))
        case None => r == None && pos == Refused(file, old(pos))
        case Some((x, next)) => r == Some(x) && pos == next
    {
      if !isOpen { return None; }
      if pos + 20 > |file| {
        if pos < |file| { pos := |file|; }
        return None;
      }
      var size := GetU32(file, pos + 16);
      if size > MAX_RECORD_BYTES {
        pos := pos + 20;
        return None;
      }
      if size != 0 && pos + 20 + size > |file| {
        pos := |file|;
        return None;
      }
      r := Some(RecordAt(file, pos, size));
      pos := pos + 20 + size;
    }

    /** A reader's whole loop. */
    method ReadAll() returns (rs: seq<Record>)
      modifies this`pos
      ensures isOpen ==> rs == ReadFrom(file, old(pos))
    {
      rs := [];
      ghost var at := pos;
      while true
        invariant at == pos && rs + ReadFrom(file, at) == ReadFrom(file, old(pos))
        decreases |file| - at
      {
        var r := ReadNext();
        if r.None? { break; }
        Assoc(rs, [r.value], ReadFrom(file, pos));
        rs := rs + [r.value];
        at := pos;
      }
    }
  }

  // ---- the layout of the file, byte by byte -------------------------------------------------

  /** The number whose bytes these are, the least significant first. */
  function Value(b: seq<byte>): nat
  {
    if b == [] then 0 else b[0] + 256 * Value(b[1..])
  }

  lemma ValueOfFour(b: seq<byte>)
    requires |b| == 4
    ensures Value(b) == b[0] as int + 256 * (b[1] as int) + 65536 * (b[2] as int) + 16777216 * (b[3] as int)
  {
    assert b[1..][1..] == b[2..] && b[2..][1..] == b[3..] && b[3..][1..] == [];
    assert Value(b[3..]) == b[3] && Value(b[2..]) == b[2] as int + 256 * Value(b[3..]);
    assert Value(b[1..]) == b[1] + 256 * Value(b[2..]);
  }

  lemma {:induction false} ValueOfTwo(a: seq<byte>, b: seq<byte>)
    requires |a| == 4
    ensures Value(a + b) == Value(a) + 4294967296 * Value(b)
  {
    var s := a + b;
    assert s[1..][1..] == s[2..] && s[2..][1..] == s[3..] && s[3..][1..] == b;
    ValueOfFour(a);
    assert Value(s[3..]) == a[3] + 256 * Value(b) && Value(s[2..]) == a[2] + 256 * Value(s[3..]);
    assert Value(s[1..]) == a[1] + 256 * Value(s[2..]);
  }

  /** The four bytes of a number, the least significant first. */
  lemma PutIsValue(v: u32)
    ensures Value(PutU32(v)) == v
  {
    ValueOfFour(PutU32(v));
  }

  lemma PutIsValue64(v: u64)
    ensures Value(PutU64(v)) == v
  {
    PutIsValue(v % 0x1_0000_0000);
    PutIsValue(v / 0x1_0000_0000);
    ValueOfTwo(PutU32(v % 0x1_0000_0000), PutU32(v / 0x1_0000_0000));
  }

  lemma GetIsValue(b: seq<byte>, at: nat)
    requires at + 4 <= |b|
    ensures GetU32(b, at) == Value(b[at..at + 4])
  {
    ValueOfFour(b[at..at + 4]);
  }

  lemma GetIsValue64(b: seq<byte>, at: nat)
    requires at + 8 <= |b|
    ensures GetU64(b, at) == Value(b[at..at + 8])
  {
    var s := b[at..at + 8];
    assert s == b[at..at + 4] + b[at + 4..at + 8];
    GetIsValue(b, at);
    GetIsValue(b, at + 4);
    ValueOfTwo(b[at..at + 4], b[at + 4..at + 8]);
  }

  /** A file starts with XCAU and a one. */
  predicate Starts(file: seq<byte>)
  {
    |file| >= 8 && file[0] == 88 && file[1] == 67 && file[2] == 65 && file[3] == 85 && Value(file[4..8]) == 1
  }

  /** The record whose twenty bytes of header and whose data stand at `pos`. */
  predicate StandsAt(file: seq<byte>, pos: nat, r: Record)
  {
    && pos + 20 <= |file| && file[pos] == r.kind
    && Value(file[pos + 4..pos + 8]) == r.seqNo && Value(file[pos + 8..pos + 16]) == r.ts
    && Value(file[pos + 16..pos + 20]) == |r.data| <= |file| - (pos + 20)
    && file[pos + 20..pos + 20 + |r.data|] == r.data
  }

  /** A file of any bytes opens exactly when it starts so, and the one written does; a read
      at any place of it gives a record exactly when one of at most 8388608 bytes stands
      there, and goes on behind it. */
  lemma LayoutIs(file: seq<byte>, pos: nat, r: Record)
    ensures Opens(file) <==> Starts(file)
    ensures Starts(FileHeader())
    ensures Next(file, pos) == Some((r, pos + 20 + |r.data|)) <==> StandsAt(file, pos, r) && |r.data| <= 8388608
    ensures Next(file, pos).Some? ==> Next(file, pos).value.1 == pos + 20 + |Next(file, pos).value.0.data|
  {
    OpensIs(file);
    PutIsValue(VERSION);
    assert FileHeader()[4..8] == PutU32(VERSION);
    if pos + 20 <= |file| {
      RecordIs(file, pos, r);
    }
  }

  lemma OpensIs(file: seq<byte>)
    ensures Opens(file) <==> Starts(file)
  {
    if |file| >= 8 {
      GetIsValue(file, 4);
      var start := file[..4];
      assert start[0] == file[0] && start[1] == file[1] && start[2] == file[2] && start[3] == file[3];
    }
  }

  lemma RecordIs(file: seq<byte>, pos: nat, r: Record)
    requires pos + 20 <= |file|
    ensures Next(file, pos) == Some((r, pos + 20 + |r.data|)) <==> StandsAt(file, pos, r) && |r.data| <= 8388608
  {
    GetIsValue(file, pos + 16);
    var size := GetU32(file, pos + 16);
    if size == |r.data| && size <= 8388608 && pos + 20 + size <= |file| {
      FieldsAre(file, pos, r);
    }
  }

  lemma FieldsAre(file: seq<byte>, pos: nat, r: Record)
    requires pos + 20 + |r.data| <= |file| && Value(file[pos + 16..pos + 20]) == |r.data|
    ensures RecordAt(file, pos, |r.data|) == r <==> StandsAt(file, pos, r)
  {
    GetIsValue(file, pos + 4);
    GetIsValue64(file, pos + 8);
  }

  /** A refused read leaves the file at its end, and then every further read is refused; or,
      if what stands there is more than 8388608 bytes long, just behind its header. */
  lemma RefusedIs(file: seq<byte>, pos: nat)
    requires Next(file, pos) == None
    ensures
      var next := Refused(file, pos);
      if pos + 20 <= |file| && Value(file[pos + 16..pos + 20]) > 8388608 then next == pos + 20
      else next == (if pos < |file| then |file| else pos) && Next(file, next) == None
  {
    if pos + 20 <= |file| {
      GetIsValue(file, pos + 16);
    }
  }

  /** The bytes written for a record: kind, three zeros, number, time, length, data. */
  lemma EncodedStands(r: Record)
    requires |r.data| < 4294967296
    ensures StandsAt(Encode(r), 0, r) && Encode(r)[1..4] == [0, 0, 0] && |Encode(r)| == 20 + |r.data|
  {
    var h := RecordHeader(r);
    HeaderHeads(r);
    PutIsValue(r.seqNo);
    PutIsValue64(r.ts);
    PutIsValue(|r.data|);
    HeadShows(h, r.data);
    assert h[1..4] == [0, 0, 0];
  }

  lemma HeadShows(h: seq<byte>, data: seq<byte>)
    requires |h| == 20
    ensures (h + data)[0] == h[0] && (h + data)[1..4] == h[1..4] && (h + data)[4..8] == h[4..8]
    ensures (h + data)[8..16] == h[8..16] && (h + data)[16..20] == h[16..20]
    ensures (h + data)[20..20 + |data|] == data
  {
  }

  // ---- round trip and truncation ------------------------------------------------------------

  /** The leading records of at most 8 MiB that fit in `room` bytes. */
  function Whole(rs: seq<Record>, room: int): seq<Record>
  {
    if rs == [] || |rs[0].data| > MAX_RECORD_BYTES || 20 + |rs[0].data| > room then []
    else [rs[0]] + Whole(rs[1..], room - (20 + |rs[0].data|))
  }

  lemma {:induction false} EncodeAllSplit(rs: seq<Record>)
    requires rs != []
    ensures EncodeAll(rs) == Encode(rs[0]) + EncodeAll(rs[1..])
  {
    var n := |rs| - 1;
    if n == 0 {
      assert EncodeAll(rs[..0]) == [] && EncodeAll(rs[1..]) == [];
      assert [] + Encode(rs[0]) == Encode(rs[0]) == Encode(rs[0]) + [];
    } else {
      EncodeAllSplit(rs[..n]);
      assert rs[..n][1..] == rs[1..][..n - 1];
      Assoc(Encode(rs[0]), EncodeAll(rs[1..][..n - 1]), Encode(rs[n]));
    }
  }

  /** These twenty bytes are the record's header. */
  predicate Heads(h: seq<byte>, r: Record)
  {
    && |h| == 20 && |r.data| < TWO32 && h[0] == r.kind && h[4..8] == PutU32(r.seqNo)
    && h[8..16] == PutU64(r.ts) && h[16..20] == PutU32(|r.data|)
  }

  lemma HeaderHeads(r: Record)
    requires |r.data| < TWO32
    ensures Heads(RecordHeader(r), r)
  {
  }

  /** A header that is there says what was written. */
  lemma HeaderRead(file: seq<byte>, pos: nat, h: seq<byte>, r: Record)
    requires pos + 20 <= |file| && Heads(h, r) && file[pos..pos + 20] == h
    ensures GetU32(file, pos + 16) == |r.data|
    ensures file[pos] == r.kind && GetU32(file, pos + 4) == r.seqNo && GetU64(file, pos + 8) == r.ts
  {
    assert file[pos] == file[pos..pos + 20][0];
    SubSlice(file, pos, 20, 4, 8);
    SubSlice(file, pos, 20, 8, 16);
    SubSlice(file, pos, 20, 16, 20);
    PutGetU32(file, pos + 4, r.seqNo);
    PutGetU64(file, pos + 8, r.ts);
    PutGetU32(file, pos + 16, |r.data|);
  }

  lemma SubSlice<T>(s: seq<T>, at: nat, n: nat, i: nat, j: nat)
    requires at + n <= |s| && i <= j <= n
    ensures s[at..at + n][i..j] == s[at + i..at + j]
  {
    var a, b := s[at..at + n][i..j], s[at + i..at + j];
    assert |a| == |b| && forall k :: 0 <= k < |a| ==> a[k] == b[k];
  }

  /** What reading at the place of a record gives, if it is whole and not too long. */
  function Expected(file: seq<byte>, pos: nat, r: Record): Option<(Record, nat)>
  {
    if pos + 20 + |r.data| <= |file| && |r.data| <= MAX_RECORD_BYTES then Some((r, pos + 20 + |r.data|))
    else None
  }

  /** These records can be read in the file from `pos` on, as far as the file goes. */
  predicate LiesAt(file: seq<byte>, pos: nat, rs: seq<Record>)
    decreases rs
  {
    if rs == [] then pos == |file|
    else
      var next := pos + 20 + |rs[0].data|;
      && Next(file, pos) == Expected(file, pos, rs[0])
      && (next <= |file| ==> LiesAt(file, next, rs[1..]))
  }

  lemma FirstLies(pre: seq<byte>, h: seq<byte>, data: seq<byte>, rest: seq<byte>, file: seq<byte>)
    requires |h| == 20 && |pre| <= |file| && file <= pre + (h + data) + rest
    ensures
      var pos := |pre|;
      var next := pos + 20 + |data|;
      && (pos + 20 <= |file| ==> file[pos..pos + 20] == h)
      && (next <= |file| ==> file[pos + 20..next] == data)
  {
    var whole := pre + (h + data) + rest;
    var pos := |pre|;
    assert whole[pos..pos + 20] == h;
    assert whole[pos + 20..pos + 20 + |data|] == data;
  }

  lemma NextFrom(file: seq<byte>, pos: nat, r: Record)
    requires pos + 20 <= |file| ==>
      && file[pos] == r.kind && GetU32(file, pos + 4) == r.seqNo && GetU64(file, pos + 8) == r.ts
      && GetU32(file, pos + 16) == |r.data|
    requires pos + 20 + |r.data| <= |file| ==> file[pos + 20..pos + 20 + |r.data|] == r.data
    ensures Next(file, pos) == Expected(file, pos, r)
  {
  }

  /** The record after `pre` is what reading there gives. */
  lemma FirstReads(pre: seq<byte>, h: seq<byte>, r: Record, rest: seq<byte>, file: seq<byte>)
    requires Heads(h, r) && |pre| <= |file| && file <= pre + (h + r.data) + rest
    ensures Next(file, |pre|) == Expected(file, |pre|, r)
  {
    FirstLies(pre, h, r.data, rest, file);
    if |pre| + 20 <= |file| {
      HeaderRead(file, |pre|, h, r);
    }
    NextFrom(file, |pre|, r);
  }

  /** `next` is `pre` and the first record. */
  lemma CutFirst(pre: seq<byte>, rs: seq<Record>, file: seq<byte>) returns (next: seq<byte>)
    requires rs != [] && |rs[0].data| < TWO32
    requires |pre| <= |file| && file <= pre + EncodeAll(rs)
    ensures Next(file, |pre|) == Expected(file, |pre|, rs[0])
    ensures |next| == |pre| + 20 + |rs[0].data| && file <= next + EncodeAll(rs[1..])
  {
    next := pre + Encode(rs[0]);
    EncodeAllSplit(rs);
    Assoc(pre, Encode(rs[0]), EncodeAll(rs[1..]));
    HeaderHeads(rs[0]);
    FirstReads(pre, RecordHeader(rs[0]), rs[0], EncodeAll(rs[1..]), file);
  }

  /** A file cut out of `pre` and the encoded records. */
  lemma {:induction false} CutLies(pre: seq<byte>, rs: seq<Record>, file: seq<byte>)
    requires |pre| <= |file| && file <= pre + EncodeAll(rs)
    requires forall r <- rs :: |r.data| < TWO32
    ensures LiesAt(file, |pre|, rs)
    decreases rs
  {
    if rs == [] {
      assert EncodeAll(rs) == [];
    } else {
      var next := CutFirst(pre, rs, file);
      assert forall r :: r in rs[1..] ==> r in rs;
      if |next| <= |file| {
        CutLies(next, rs[1..], file);
      }
      LiesStep(file, |pre|, rs);
    }
  }

  lemma LiesStep(file: seq<byte>, pos: nat, rs: seq<Record>)
    requires rs != [] && Next(file, pos) == Expected(file, pos, rs[0])
    requires pos + 20 + |rs[0].data| <= |file| ==> LiesAt(file, pos + 20 + |rs[0].data|, rs[1..])
    ensures LiesAt(file, pos, rs)
  {
  }

  lemma {:induction false} ReadsWhole(file: seq<byte>, pos: nat, rs: seq<Record>)
    requires LiesAt(file, pos, rs)
    ensures ReadFrom(file, pos) == Whole(rs, |file| - pos)
    decreases rs
  {
    if rs != [] {
      var next := pos + 20 + |rs[0].data|;
      if next <= |file| && |rs[0].data| <= MAX_RECORD_BYTES {
        ReadsOne(file, pos, rs[0], next);
        ReadsWhole(file, next, rs[1..]);
      } else {
        ReadsNone(file, pos);
      }
    }
  }

  lemma ReadsOne(file: seq<byte>, pos: nat, r: Record, next: nat)
    requires Next(file, pos) == Some((r, next))
    ensures ReadFrom(file, pos) == [r] + ReadFrom(file, next)
  {
  }

  lemma ReadsNone(file: seq<byte>, pos: nat)
    requires Next(file, pos) == None
    ensures ReadFrom(file, pos) == []
  {
  }

  lemma HeaderOpens(file: seq<byte>)
    requires |file| >= 8 && file[..8] == FileHeader()
    ensures Opens(file)
  {
    var h := FileHeader();
    assert h[..4] == MAGIC && h[4..8] == PutU32(VERSION);
    assert file[..4] == file[..8][..4];
    assert file[4..8] == file[..8][4..8];
    PutGetU32(file, 4, VERSION);
  }

  /** Cut a recording anywhere past its header: what is read back is exactly the records
      that lie wholly before the cut, up to the first one the reader would not take. */
  lemma TruncatedRoundTrip(rs: seq<Record>, cut: nat)
    requires forall r <- rs :: |r.data| < TWO32
    requires 8 <= cut <= |FileOf(rs)|
    ensures Opens(FileOf(rs)[..cut])
    ensures ReadFrom(FileOf(rs)[..cut], 8) == Whole(rs, cut - 8)
  {
    var file := FileOf(rs)[..cut];
    assert file[..8] == FileHeader();
    HeaderOpens(file);
    CutLies(FileHeader(), rs, file);
    ReadsWhole(file, 8, rs);
  }

  /** The first `k` records fit in `room` bytes and are within the limit, and the next
      one, if any, does not fit or is over the limit. */
  predicate StopsAt(rs: seq<Record>, room: int, k: nat)
  {
    && k <= |rs| && |EncodeAll(rs[..k])| <= room
    && (forall i :: 0 <= i < k ==> |rs[i].data| <= MAX_RECORD_BYTES)
    && (k < |rs| ==> |rs[k].data| > MAX_RECORD_BYTES || |EncodeAll(rs[..k + 1])| > room)
  }

  /** `Whole` is a prefix; it stops only at the end, at the cut, or at a record over the
      limit. */
  lemma {:induction false} WholeIs(rs: seq<Record>, room: int)
    requires room >= 0
    ensures StopsAt(rs, room, |Whole(rs, room)|)
    ensures Whole(rs, room) == rs[..|Whole(rs, room)|]
  {
    if rs == [] || |rs[0].data| > MAX_RECORD_BYTES || 20 + |rs[0].data| > room {
      StopsAtOnce(rs, room);
    } else {
      var room1 := room - (20 + |rs[0].data|);
      WholeIs(rs[1..], room1);
      var k := |Whole(rs[1..], room1)|;
      StopsAtOneMore(rs, room, k);
      FirstAndRest(rs, k);
    }
  }

  lemma FirstAndRest(rs: seq<Record>, k: nat)
    requires k < |rs|
    ensures [rs[0]] + rs[1..][..k] == rs[..k + 1]
  {
  }

  lemma StopsAtOnce(rs: seq<Record>, room: int)
    requires room >= 0 && (rs != [] ==> |rs[0].data| > MAX_RECORD_BYTES || 20 + |rs[0].data| > room)
    ensures StopsAt(rs, room, 0)
  {
    if rs != [] {
      EncodeFirst(rs, 0);
    }
  }

  lemma StopsAtOneMore(rs: seq<Record>, room: int, k: nat)
    requires rs != [] && |rs[0].data| <= MAX_RECORD_BYTES
    requires StopsAt(rs[1..], room - (20 + |rs[0].data|), k)
    ensures StopsAt(rs, room, k + 1)
  {
    var rest := rs[1..];
    EncodeFirst(rs, k);
    if k < |rest| {
      EncodeFirst(rs, k + 1);
    }
    forall i | 0 <= i < k + 1 ensures |rs[i].data| <= MAX_RECORD_BYTES {
      assert i > 0 ==> rs[i] == rest[i - 1];
    }
  }

  lemma EncodeFirst(rs: seq<Record>, k: nat)
    requires k < |rs|
    ensures |EncodeAll(rs[..k + 1])| == 20 + |rs[0].data| + |EncodeAll(rs[1..][..k])|
  {
    EncodeAllSplit(rs[..k + 1]);
    assert rs[..k + 1][1..] == rs[1..][..k];
  }

  /** Records of at most 8 MiB come back unchanged. */
  lemma RoundTrip(rs: seq<Record>)
    requires forall r <- rs :: |r.data| <= MAX_RECORD_BYTES
    ensures Opens(FileOf(rs)) && ReadFrom(FileOf(rs), 8) == rs
  {
    var file := FileOf(rs);
    assert file[..|file|] == file;
    TruncatedRoundTrip(rs, |file|);
    WholeIs(rs, |file| - 8);
    var k := |Whole(rs, |file| - 8)|;
    if k < |rs| {
      EncodePrefix(rs, k + 1);
    }
    assert rs[..|rs|] == rs;
  }

  lemma {:induction false} EncodePrefix(rs: seq<Record>, k: nat)
    requires k <= |rs|
    ensures |EncodeAll(rs[..k])| <= |EncodeAll(rs)|
  {
    if k < |rs| {
      var before := rs[..|rs| - 1];
      EncodePrefix(before, k);
      assert before[..k] == rs[..k];
    } else {
      assert rs[..k] == rs;
    }
  }

  /** Records carried over make the file longer. */
  lemma CarriedShows(carried: seq<Record>, accepted: seq<Record>)
    ensures FileOf(carried + accepted) == FileOf(accepted) <==> carried == []
  {
    EncodeSizes(carried, accepted);
    if carried == [] {
      assert carried + accepted == accepted;
    } else {
      assert |EncodeAll(carried)| >= |Encode(carried[|carried| - 1])| >= 20;
      assert |FileOf(carried + accepted)| > |FileOf(accepted)|;
    }
  }

  lemma {:induction false} EncodeSizes(a: seq<Record>, b: seq<Record>)
    ensures |EncodeAll(a + b)| == |EncodeAll(a)| + |EncodeAll(b)|
  {
    if b == [] {
      assert a + b == a;
    } else {
      EncodeSizes(a, b[..|b| - 1]);
      assert (a + b)[..|a + b| - 1] == a + b[..|b| - 1];
    }
  }

  lemma NothingYet(queue: seq<Record>)
    ensures queue + [] == [] + ([] + queue)
  {
  }

  // ---- the recorder ------------------------------------------------------------------------------

  /** Callers push from any thread, the writer thread takes whole batches: each method is
      one step under the lock, or one record written, so an interleaving is a sequence
      of calls. */
  class AuRecorder {
    var active: bool
    var queue: seq<Record>
    var batch: seq<Record>
    var file: seq<byte>
    var records: u32
    var bytes: u64
    var dropped: u32
    /** Left in the queue when the file was opened, and accepted since. */
    ghost var carried: seq<Record>
    ghost var accepted: seq<Record>
    ghost var written: seq<Record>

    /** What was carried over and accepted is in the file, in the writer's hands or in the
        queue, in the order it was pushed. */
    ghost predicate Valid()
      reads this
    {
      && carried + accepted == written + (batch + queue)
      && file == FileOf(written) && |queue| <= MAX_QUEUED
    }

    constructor ()
      ensures Valid() && active && carried == accepted == [] && file == FileHeader() && dropped == 0
    {
      active := true;
      queue, batch := [], [];
      file := FileHeader();
      records, bytes, dropped := 0, 0, 0;
      carried, accepted, written := [], [], [];
      new;
      assert FileOf([]) == FileHeader();
    }

    /** open(), on a recorder that was closed before and whose writer has left: a new file,
        but what is still in the queue stays there and goes into it. */
    method Reopen()
      requires Valid() && !active && batch == []
      modifies this
      ensures Valid() && active && file == FileHeader() && queue == old(queue) && batch == []
      ensures carried == old(queue) && accepted == [] && records == bytes == dropped == 0
    {
      file := FileHeader();
      records, bytes, dropped := 0, 0, 0;
      active := true;
      carried, accepted, written := queue, [], [];
      assert FileOf([]) == FileHeader();
      NothingYet(queue);
    }

    method Push(r: Record)
      requires Valid()
      modifies this`queue, this`dropped, this`accepted
      ensures Valid()
      ensures
        if active && |old(queue)| < 256 then
          queue == old(queue) + [r] && accepted == old(accepted) + [r] && dropped == old(dropped)
        else
          queue == old(queue) && accepted == old(accepted)
          && dropped == (if active then Add32(old(dropped), 1) else old(dropped))
    {
      if active { Enqueue(r); }
    }

    /** The locked half of a push.  The active flag was tested before, so this can come
        after close(), even after the writer has left. */
    method Enqueue(r: Record)
      requires Valid()
      modifies this`queue, this`dropped, this`accepted
      ensures Valid()
      ensures
        if |old(queue)| < 256 then
          queue == old(queue) + [r] && accepted == old(accepted) + [r] && dropped == old(dropped)
        else
          queue == old(queue) && accepted == old(accepted) && dropped == Add32(old(dropped), 1)
    {
      if |queue| >= MAX_QUEUED {
        dropped := Add32(dropped, 1);
        return;
      }
      queue := queue + [r];
      accepted := accepted + [r];
      Assoc(batch, old(queue), [r]);
      Assoc(written, batch + old(queue), [r]);
      Assoc(carried, old(accepted), [r]);
    }

    /** The writer swaps its empty batch for the queue. */
    method TakeBatch()
      requires Valid() && batch == []
      modifies this`batch, this`queue
      ensures Valid() && batch == old(queue) && queue == []
    {
      batch, queue := queue, batch;
    }

    /** The writer writes the next record of its batch. */
    method WriteOne()
      requires Valid() && batch != [] && forall r <- batch :: |r.data| < TWO32
      modifies this`batch, this`file, this`records, this`bytes, this`written
      ensures Valid() && batch == old(batch)[1..] && written == old(written) + [old(batch)[0]]
      ensures records == Add32(old(records), 1) && bytes == (old(bytes) + |old(batch)[0].data|) % TWO64
    {
      var r := batch[0];
      file := file + RecordHeader(r);
      file := file + r.data;
      records := Add32(records, 1);
      bytes := Add64(bytes, |r.data|);
      Assoc(old(file), RecordHeader(r), r.data);
      Assoc(FileHeader(), EncodeAll(written), Encode(r));
      assert (written + [r])[..|written|] == written;
      written := written + [r];
      SliceTail(batch, 0);
      Assoc(written[..|written| - 1], [r], batch[1..] + queue);
      Assoc([r], batch[1..], queue);
      batch := batch[1..];
    }

    /** The end of the writer's loop, once its batch is written: after close() it leaves when
        nothing is queued, whatever was pushed in between; and then the file holds what was
        carried over and everything accepted, in order, and so exactly what was accepted
        since it was opened if and only if nothing was carried over. */
    method TryLeave() returns (left: bool)
      requires Valid() && batch == []
      ensures left <==> !active && queue == []
      ensures left ==> file == FileOf(carried + accepted)
      ensures left ==> (file == FileOf(accepted) <==> carried == [])
    {
      left := !active && queue == [];
      if left {
        assert written + ([] + []) == written;
        CarriedShows(carried, accepted);
      }
    }

    /** close() and the writer running until nothing is left: the file holds everything
        accepted by then, in order. */
    method Close()
      requires Valid() && (forall r <- batch + queue :: |r.data| < TWO32)
      modifies this
      ensures Valid() && !active && batch == queue == []
      ensures carried == old(carried) && accepted == old(accepted) && dropped == old(dropped)
      ensures file == FileOf(carried + accepted)
    {
      active := false;
      while batch != []
        invariant Valid() && !active && carried == old(carried) && accepted == old(accepted) && queue == old(queue)
        invariant dropped == old(dropped)
        invariant forall r <- batch :: |r.data| < TWO32
        decreases |batch|
      {
        WriteOne();
      }
      TakeBatch();
      while batch != []
        invariant Valid() && !active && carried == old(carried) && accepted == old(accepted) && queue == []
        invariant dropped == old(dropped)
        invariant forall r <- batch :: |r.data| < TWO32
        decreases |batch|
      {
        WriteOne();
      }
      assert written + ([] + []) == written;
    }
  }
}
