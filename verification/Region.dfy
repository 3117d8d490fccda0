// The Anvil region container (crates/anvil/src/region.rs) and chunk coordinates
// (crates/anvil/src/chunk.rs).
module Region {
  import opened Collections
  import opened Bytes

  const SECTOR := 4096
  const MAX_INLINE_SECTORS := 255
  const MAX_EXTERNAL_CHUNK := 128 * 1024 * 1024

  datatype Scheme = GZip | ZLib | NoCompression | Lz4 | Custom

  /** Absolute chunk coordinates. */
  datatype Pos = Pos(x: int, z: int)

  newtype i32 = n: int | -0x8000_0000 <= n < 0x8000_0000 witness 0

  datatype RawChunk = RawChunk(pos: Pos, scheme: Scheme, payload: seq<byte>, external: bool, timestamp: i32)

  /** A file beside the region: a regular file, or something that must not be read. */
  datatype File = Regular(data: seq<byte>) | Special

  type Beside = map<Pos, File>

  function ToByte(s: Scheme): byte {
    match s
    case GZip => 1
    case ZLib => 2
    case NoCompression => 3
    case Lz4 => 4
    case Custom => 127
  }

  function FromByte(b: int): Option<Scheme> {
    if b == 1 then Some(GZip)
    else if b == 2 then Some(ZLib)
    else if b == 3 then Some(NoCompression)
    else if b == 4 then Some(Lz4)
    else if b == 127 then Some(Custom)
    else None
  }

  // ---- coordinates ----

  /** Place in the location table, 0 to 1023. */
  function RegionIndex(p: Pos): (i: nat)
    ensures i < 1024
  {
    p.x % 32 + (p.z % 32) * 32
  }

  function RegionOf(p: Pos): Pos {
    Pos(p.x / 32, p.z / 32)
  }

  function FromRegionIndex(r: Pos, index: nat): Pos {
    Pos(r.x * 32 + index % 32, r.z * 32 + index / 32)
  }

  /** A position is its region and its place in the table, negative coordinates included. */
  lemma IndexRoundTrip(p: Pos, r: Pos, index: nat)
    requires index < 1024
    ensures FromRegionIndex(RegionOf(p), RegionIndex(p)) == p
    ensures RegionOf(FromRegionIndex(r, index)) == r && RegionIndex(FromRegionIndex(r, index)) == index
  {
    var x, z := p.x % 32, p.z % 32;
    assert (x + z * 32) % 32 == x && (x + z * 32) / 32 == z;
    var q := FromRegionIndex(r, index);
    assert q.x % 32 == index % 32 && q.z % 32 == index / 32;
  }

  // ---- writing ----

  function Needed(ch: RawChunk): nat {
    (5 + |ch.payload| + SECTOR - 1) / SECTOR
  }

  predicate Spills(ch: RawChunk) {
    Needed(ch) > MAX_INLINE_SECTORS
  }

  function Sectors(ch: RawChunk): nat {
    if Spills(ch) then 1 else Needed(ch)
  }

  function Inline(ch: RawChunk): seq<byte> {
    if Spills(ch) then [] else ch.payload
  }

  /** The scheme byte, its top bit set for a spilled chunk. */
  function SchemeByte(ch: RawChunk): byte {
    if Spills(ch) then (ToByte(ch.scheme) as int + 128) as byte else ToByte(ch.scheme)
  }

  function Zeros(n: nat): seq<byte> {
    seq(n, _ => 0)
  }

  /** The sectors of one chunk: length, scheme, payload, padding. */
  function Sectored(ch: RawChunk): (r: seq<byte>)
    ensures |r| == Sectors(ch) * SECTOR
  {
    var head := Be(|Inline(ch)| + 1, 4) + [SchemeByte(ch)] + Inline(ch);
    assert |head| <= Sectors(ch) * SECTOR;
    head + Zeros(Sectors(ch) * SECTOR - |head|)
  }

  /** The first sector of the `n`th chunk. */
  function Offset(chunks: seq<RawChunk>, n: nat): nat
    requires n <= |chunks|
  {
    if n == 0 then 2 else Offset(chunks, n - 1) + Sectors(chunks[n - 1])
  }

  function Bodies(chunks: seq<RawChunk>, n: nat): (r: seq<byte>)
    requires n <= |chunks|
    ensures |r| == (Offset(chunks, n) - 2) * SECTOR
  {
    if n == 0 then [] else Bodies(chunks, n - 1) + Sectored(chunks[n - 1])
  }

  function Unsigned(n: i32): nat {
    if n < 0 then n as int + 0x1_0000_0000 else n as int
  }

  function Signed(n: nat): i32
    requires n < 0x1_0000_0000
  {
    if n < 0x8000_0000 then n as i32 else (n - 0x1_0000_0000) as i32
  }

  /** The header with one chunk's location and timestamp entered. */
  function Entered(header: seq<byte>, ch: RawChunk, offset: nat): (r: seq<byte>)
    requires |header| == 2 * SECTOR
    ensures |r| == 2 * SECTOR
  {
    var e := RegionIndex(ch.pos) * 4;
    header[e := Be(offset, 3)[0]][e + 1 := Be(offset, 3)[1]][e + 2 := Be(offset, 3)[2]][e +
        3 := (Sectors(ch) % 256) as byte]
      [SECTOR + e := Be(Unsigned(ch.timestamp), 4)[0]][SECTOR + e + 1 := Be(Unsigned(ch.timestamp), 4)[1]]
      [SECTOR + e + 2 := Be(Unsigned(ch.timestamp), 4)[2]][SECTOR + e + 3 := Be(Unsigned(ch.timestamp), 4)[3]]
  }

  function Header(chunks: seq<RawChunk>, n: nat): (r: seq<byte>)
    requires n <= |chunks|
    ensures |r| == 2 * SECTOR
  {
    if n == 0 then Zeros(2 * SECTOR) else Entered(Header(chunks, n - 1), chunks[n - 1], Offset(chunks, n - 1))
  }

  /** The files the spilled chunks go to. */
  function Spilled(beside: Beside, chunks: seq<RawChunk>, n: nat): Beside
    requires n <= |chunks|
  {
    if n == 0 then beside
    else
      var before := Spilled(beside, chunks, n - 1);
      if Spills(chunks[n - 1]) then before[chunks[n - 1].pos := Regular(chunks[n - 1].payload)] else before
  }

  /** Stable insertion by place in the table. */
  function Inserted(ch: RawChunk, s: seq<RawChunk>): seq<RawChunk> {
    if s == [] || RegionIndex(ch.pos) < RegionIndex(s[0].pos) then [ch] + s else [s[0]] + Inserted(ch, s[1..])
  }

  function Ordered(chunks: seq<RawChunk>): (r: seq<RawChunk>)
  {
    if chunks == [] then [] else Inserted(chunks[|chunks| - 1], Ordered(chunks[..|chunks| - 1]))
  }

  function Written(chunks: seq<RawChunk>): seq<byte> {
    Header(chunks, |chunks|) + Bodies(chunks, |chunks|)
  }

  /** Lays out the chunks by place in the table; those over 255 sectors go beside. */
  method Write(chunks: seq<RawChunk>, beside: Beside) returns (out: seq<byte>, files: Beside)
    ensures out == Written(Ordered(chunks))
    ensures files == Spilled(beside, Ordered(chunks), |Ordered(chunks)|)
  {
    hide Entered, Sectored, Sectors, Spills, Be, Ordered, RegionIndex;
    var ordered := Ordered(chunks);
    var header := new byte[2 * SECTOR](_ => 0);
    assert header[..] == Zeros(2 * SECTOR);
    var bodies: seq<byte> := [];
    var offsetSectors := 2;
    files := beside;
    for i := 0 to |ordered|
      invariant header[..] == Header(ordered, i)
      invariant bodies == Bodies(ordered, i)
      invariant offsetSectors == Offset(ordered, i)
      invariant files == Spilled(beside, ordered, i)
    {
      var ch := ordered[i];
      if Spills(ch) {
        files := files[ch.pos := Regular(ch.payload)];
      }
      bodies := bodies + Sectored(ch);
      Enter(header, ch, offsetSectors);
      offsetSectors := offsetSectors + Sectors(ch);
    }
    out := header[..] + bodies;
  }

  method Enter(header: array<byte>, ch: RawChunk, offset: nat)
    requires header.Length == 2 * SECTOR
    modifies header
    ensures header[..] == Entered(old(header[..]), ch, offset)
  {
    var e := RegionIndex(ch.pos) * 4;
    var location, time := Be(offset, 3), Be(Unsigned(ch.timestamp), 4);
    header[e] := location[0];
    header[e + 1] := location[1];
    header[e + 2] := location[2];
    header[e + 3] := (Sectors(ch) % 256) as byte;
    var t := SECTOR + e;
    header[t] := time[0];
    header[t + 1] := time[1];
    header[t + 2] := time[2];
    header[t + 3] := time[3];
  }

  // ---- reading ----

  /** What one place of the table yields: a chunk, nothing, or a refusal to read an
      oversized external body. */
  function ReadSlot(bytes: seq<byte>, beside: Beside, r: Pos, i: nat): Result<Option<RawChunk>>
    requires |bytes| >= 2 * SECTOR && i < 1024
  {
    var e := i * 4;
    var offset := FromBe(bytes[e..e + 3]);
    var start := offset * SECTOR;
    if offset == 0 || bytes[e + 3] == 0 || start + 5 > |bytes| then Ok(None)
    else
      FromBeBound(bytes[start..start + 4]);
      FromBeBound(bytes[SECTOR + e..SECTOR + e + 4]);
      Widths();
      var length := Signed(FromBe(bytes[start..start + 4]));
      var external := bytes[start + 4] >= 128;
      match FromByte(bytes[start + 4] as int % 128)
      case None => Ok(None)
      case Some(scheme) =>
        var pos := FromRegionIndex(r, i);
        var timestamp := Signed(FromBe(bytes[SECTOR + e..SECTOR + e + 4]));
        if length <= 0 then Ok(None)
        else if external then
          if pos !in beside then Ok(None)
          else if beside[pos].Special? || |beside[pos].data| > MAX_EXTERNAL_CHUNK then Err
          else Ok(Some(RawChunk(pos, scheme, beside[pos].data, true, timestamp)))
        else
          var from := start + 5;
          var len := if from + (length as int - 1) > |bytes| then |bytes| - from else length as int - 1;
          if len == 0 then Ok(None) else Ok(Some(RawChunk(pos, scheme, bytes[from..from + len], false, timestamp)))
  }

  // ---- what reading finds, in plain numbers ----

  /** Three bytes as a number, highest first. */
  function Number3(bytes: seq<byte>, at: nat): nat
    requires at + 3 <= |bytes|
  {
    bytes[at] as int * 65536 + bytes[at + 1] as int * 256 + bytes[at + 2] as int
  }

  /** Four bytes as a number, highest first, in two's complement. */
  function Number4(bytes: seq<byte>, at: nat): int
    requires at + 4 <= |bytes|
  {
    (if bytes[at] >= 128 then bytes[at] as int - 256 else bytes[at] as int) * 0x100_0000
    + bytes[at + 1] as int * 65536 + bytes[at + 2] as int * 256 + bytes[at + 3] as int
  }

  /** The number a compression scheme goes by. */
  predicate Numbered(b: int, scheme: Scheme) {
    match scheme
    case GZip => b == 1
    case ZLib => b == 2
    case NoCompression => b == 3
    case Lz4 => b == 4
    case Custom => b == 127
  }

  /** Place `i` of the table leads to a body in the file: the table's first three
      bytes say at which sector, the fourth that there are any, and the body starts
      with a positive length and the number of a scheme. */
  predicate Leads(bytes: seq<byte>, i: nat, scheme: Scheme)
    requires |bytes| >= 2 * SECTOR && i < 1024
  {
    var at := Number3(bytes, 4 * i) * 4096;
    && at != 0 && bytes[4 * i + 3] != 0 && at + 5 <= |bytes|
    && Number4(bytes, at) > 0
    && Numbered(bytes[at + 4] as int % 128, scheme)
  }

  predicate Beyond(bytes: seq<byte>, i: nat)
    requires |bytes| >= 2 * SECTOR && i < 1024
  {
    var at := Number3(bytes, 4 * i) * 4096;
    at + 5 <= |bytes| && bytes[at + 4] >= 128
  }

  /** The bytes of a body that lies in the file, cut off at its end. */
  ghost predicate Inside(bytes: seq<byte>, i: nat, payload: seq<byte>)
    requires |bytes| >= 2 * SECTOR && i < 1024
  {
    var at := Number3(bytes, 4 * i) * 4096;
    && payload != [] && at + 5 + |payload| <= |bytes|
    && (|payload| == Number4(bytes, at) - 1
        || (|payload| < Number4(bytes, at) - 1 && at + 5 + |payload| == |bytes|))
    && forall k :: 0 <= k < |payload| ==> payload[k] == bytes[at + 5 + k]
  }

  /** The position of place `i`, x running fastest. */
  function PlaceOf(r: Pos, i: nat): Pos {
    Pos(32 * r.x + i % 32, 32 * r.z + i / 32)
  }

  /** Place `i` holds the chunk. */
  ghost predicate HeldAt(bytes: seq<byte>, beside: Beside, r: Pos, i: nat, ch: RawChunk)
    requires |bytes| >= 2 * SECTOR && i < 1024
  {
    && Leads(bytes, i, ch.scheme)
    && ch.pos == PlaceOf(r, i)
    && ch.timestamp as int == Number4(bytes, 4096 + 4 * i)
    && ch.external == Beyond(bytes, i)
    && if ch.external
       then ch.pos in beside && beside[ch.pos] == Regular(ch.payload) && |ch.payload| <= 0x800_0000
       else Inside(bytes, i, ch.payload)
  }

  /** Place `i` leads to a file beside the region that must not be read. */
  ghost predicate Refused(bytes: seq<byte>, beside: Beside, r: Pos, i: nat)
    requires |bytes| >= 2 * SECTOR && i < 1024
  {
    && (exists scheme :: Leads(bytes, i, scheme)) && Beyond(bytes, i) && PlaceOf(r, i) in beside
    && (beside[PlaceOf(r, i)].Special? || |beside[PlaceOf(r, i)].data| > 0x800_0000)
  }

  lemma Slice3(bytes: seq<byte>, at: nat)
    requires at + 3 <= |bytes|
    ensures FromBe(bytes[at..at + 3]) == Number3(bytes, at)
  {
    FromBe3(bytes[at], bytes[at + 1], bytes[at + 2]);
    assert bytes[at..at + 3] == [bytes[at], bytes[at + 1], bytes[at + 2]];
  }

  lemma Slice4(bytes: seq<byte>, at: nat)
    requires at + 4 <= |bytes|
    ensures FromBe(bytes[at..at + 4]) < 0x1_0000_0000
    ensures Signed(FromBe(bytes[at..at + 4])) as int == Number4(bytes, at)
  {
    hide FromBe;
    FromBe4(bytes[at], bytes[at + 1], bytes[at + 2], bytes[at + 3]);
    assert bytes[at..at + 4] == [bytes[at], bytes[at + 1], bytes[at + 2], bytes[at + 3]];
  }

  lemma SchemeNumbered(b: int, scheme: Scheme)
    ensures FromByte(b) == Some(scheme) <==> Numbered(b, scheme)
  {}

  /** The table entry and the head of the body as `ReadSlot` reads them. */
  lemma EntryReads(bytes: seq<byte>, i: nat)
    requires |bytes| >= 2 * SECTOR && i < 1024
    ensures FromBe(bytes[4 * i..4 * i + 3]) == Number3(bytes, 4 * i)
    ensures FromBe(bytes[SECTOR + 4 * i..SECTOR + 4 * i + 4]) < 0x1_0000_0000
    ensures Signed(FromBe(bytes[SECTOR + 4 * i..SECTOR + 4 * i + 4])) as int == Number4(bytes, SECTOR + 4 * i)
    ensures var at := Number3(bytes, 4 * i) * SECTOR;
            at + 5 <= |bytes| ==>
              && FromBe(bytes[at..at + 4]) < 0x1_0000_0000
              && Signed(FromBe(bytes[at..at + 4])) as int == Number4(bytes, at)
              && forall scheme :: FromByte(bytes[at + 4] as int % 128) == Some(scheme) <==>
                   Numbered(bytes[at + 4] as int % 128, scheme)
  {
    hide FromBe, Signed, FromByte, Number3, Number4, Numbered;
    Slice3(bytes, 4 * i);
    Slice4(bytes, SECTOR + 4 * i);
    var at := Number3(bytes, 4 * i) * SECTOR;
    if at + 5 <= |bytes| {
      Slice4(bytes, at);
      forall scheme
        ensures FromByte(bytes[at + 4] as int % 128) == Some(scheme) <==> Numbered(bytes[at + 4] as int % 128, scheme)
      {
        SchemeNumbered(bytes[at + 4] as int % 128, scheme);
      }
    }
  }

  lemma SlotHolds(bytes: seq<byte>, beside: Beside, r: Pos, i: nat)
    requires |bytes| >= 2 * SECTOR && i < 1024
    ensures match ReadSlot(bytes, beside, r, i)
            case Ok(Some(ch)) => HeldAt(bytes, beside, r, i, ch)
            case Ok(None) => true
            case Err => Refused(bytes, beside, r, i)
  {
    hide FromBe, Signed, FromByte, Number3, Number4, Numbered;
    EntryReads(bytes, i);
    assert i * 4 == 4 * i;
    var slot := ReadSlot(bytes, beside, r, i);
    if slot.Err? {
      var at := Number3(bytes, 4 * i) * SECTOR;
      var scheme := FromByte(bytes[at + 4] as int % 128).value;
      assert Leads(bytes, i, scheme);
    }
  }

  lemma HeldIsRead(bytes: seq<byte>, beside: Beside, r: Pos, i: nat, ch: RawChunk)
    requires |bytes| >= 2 * SECTOR && i < 1024 && HeldAt(bytes, beside, r, i, ch)
    ensures ReadSlot(bytes, beside, r, i) == Ok(Some(ch))
  {
    hide FromBe, Signed, FromByte, Number3, Number4, Numbered;
    EntryReads(bytes, i);
    assert i * 4 == 4 * i;
    var at := Number3(bytes, 4 * i) * SECTOR;
    assert FromByte(bytes[at + 4] as int % 128) == Some(ch.scheme);
    assert FromRegionIndex(r, i) == ch.pos;
    assert Signed(FromBe(bytes[SECTOR + 4 * i..SECTOR + 4 * i + 4])) == ch.timestamp;
    assert Signed(FromBe(bytes[at..at + 4])) > 0;
    if !ch.external {
      var from := Number3(bytes, 4 * i) * SECTOR + 5;
      assert ch.payload == bytes[from..from + |ch.payload|];
    }
  }

  lemma RefusedIsErr(bytes: seq<byte>, beside: Beside, r: Pos, i: nat)
    requires |bytes| >= 2 * SECTOR && i < 1024 && Refused(bytes, beside, r, i)
    ensures ReadSlot(bytes, beside, r, i).Err?
  {
    hide FromBe, Signed, FromByte, Number3, Number4, Numbered;
    EntryReads(bytes, i);
    assert i * 4 == 4 * i;
    var scheme :| Leads(bytes, i, scheme);
    var at := Number3(bytes, 4 * i) * SECTOR;
    assert FromByte(bytes[at + 4] as int % 128) == Some(scheme);
  }

  /** One place: its chunk if it holds one, a refusal if it leads to a file that
      must not be read, nothing otherwise. */
  lemma SlotMeans(bytes: seq<byte>, beside: Beside, r: Pos, i: nat)
    requires |bytes| >= 2 * SECTOR && i < 1024
    ensures forall ch :: ReadSlot(bytes, beside, r, i) == Ok(Some(ch)) <==> HeldAt(bytes, beside, r, i, ch)
    ensures ReadSlot(bytes, beside, r, i).Err? <==> Refused(bytes, beside, r, i)
  {
    hide ReadSlot, HeldAt, Refused;
    SlotHolds(bytes, beside, r, i);
    forall ch | HeldAt(bytes, beside, r, i, ch) ensures ReadSlot(bytes, beside, r, i) == Ok(Some(ch)) {
      HeldIsRead(bytes, beside, r, i, ch);
    }
    if Refused(bytes, beside, r, i) { RefusedIsErr(bytes, beside, r, i); }
  }

  function ReadSlots(bytes: seq<byte>, beside: Beside, r: Pos, n: nat): Result<map<Pos, RawChunk>>
    requires |bytes| >= 2 * SECTOR && n <= 1024
  {
    if n == 0 then Ok(map[])
    else
      match (ReadSlots(bytes, beside, r, n - 1), ReadSlot(bytes, beside, r, n - 1))
      case (Ok(m), Ok(Some(ch))) => Ok(m[ch.pos := ch])
      case (Ok(m), Ok(None)) => Ok(m)
      case _ => Err
  }

  /** What the first `n` places of the table hold. */
  ghost predicate HoldsTo(bytes: seq<byte>, beside: Beside, r: Pos, n: nat, result: Result<map<Pos, RawChunk>>)
    requires |bytes| >= 2 * SECTOR && n <= 1024
  {
    match result
    case Err => exists i :: 0 <= i < n && Refused(bytes, beside, r, i)
    case Ok(m) =>
      && (forall i :: 0 <= i < n ==> !Refused(bytes, beside, r, i))
      && (forall i, ch :: 0 <= i < n && HeldAt(bytes, beside, r, i, ch) ==> ch.pos in m && m[ch.pos] == ch)
      && (forall p :: p in m ==> m[p].pos == p && exists i :: 0 <= i < n && HeldAt(bytes, beside, r, i, m[p]))
  }

  lemma PlacesDiffer(r: Pos, i: nat, j: nat)
    requires i < 1024 && j < 1024 && PlaceOf(r, i) == PlaceOf(r, j)
    ensures i == j
  {}

  lemma HeldPos(bytes: seq<byte>, beside: Beside, r: Pos, i: nat, ch: RawChunk)
    requires |bytes| >= 2 * SECTOR && i < 1024 && HeldAt(bytes, beside, r, i, ch)
    ensures ch.pos == PlaceOf(r, i)
  {}

  lemma HoldsMore(bytes: seq<byte>, beside: Beside, r: Pos, n: nat, m: map<Pos, RawChunk>, next: nat)
    requires |bytes| >= 2 * SECTOR && n < 1024 && next == n + 1 && HoldsTo(bytes, beside, r, n, Ok(m))
    ensures match ReadSlot(bytes, beside, r, n)
            case Err => HoldsTo(bytes, beside, r, next, Err)
            case Ok(None) => HoldsTo(bytes, beside, r, next, Ok(m))
            case Ok(Some(ch)) => HoldsTo(bytes, beside, r, next, Ok(m[ch.pos := ch]))
  {
    hide ReadSlot, HeldAt, Refused, PlaceOf;
    SlotMeans(bytes, beside, r, n);
    match ReadSlot(bytes, beside, r, n) {
      case Err => assert Refused(bytes, beside, r, n);
      case Ok(None) =>
        forall i, ch | 0 <= i < next && HeldAt(bytes, beside, r, i, ch) ensures i < n {}
      case Ok(Some(ch)) =>
        assert HeldAt(bytes, beside, r, n, ch);
        HeldPos(bytes, beside, r, n, ch);
        forall i, other | 0 <= i < n && HeldAt(bytes, beside, r, i, other) ensures other.pos != ch.pos {
          HeldPos(bytes, beside, r, i, other);
          if other.pos == ch.pos { PlacesDiffer(r, i, n); }
        }
        var wider := m[ch.pos := ch];
        forall p | p in wider ensures exists i :: 0 <= i < next && HeldAt(bytes, beside, r, i, wider[p]) {
          if p == ch.pos {
            assert HeldAt(bytes, beside, r, n, wider[p]);
          } else {
            var i :| 0 <= i < n && HeldAt(bytes, beside, r, i, m[p]);
          }
        }
    }
  }

  /** The table as a whole, place by place. */
  lemma {:induction false} SlotsMean(bytes: seq<byte>, beside: Beside, r: Pos, n: nat)
    requires |bytes| >= 2 * SECTOR && n <= 1024
    ensures HoldsTo(bytes, beside, r, n, ReadSlots(bytes, beside, r, n))
  {
    hide ReadSlot, HeldAt, Refused;
    if n > 0 {
      SlotsMean(bytes, beside, r, n - 1);
      var before := ReadSlots(bytes, beside, r, n - 1);
      if before.Ok? { HoldsMore(bytes, beside, r, n - 1, before.value, n); }
    }
  }

  /** Reads any bytes whatever as a region: the chunks held at the places of the
      table, unless some place leads to a file that must not be read. */
  method Parse(bytes: seq<byte>, beside: Beside, r: Pos) returns (chunks: Result<map<Pos, RawChunk>>)
    ensures chunks == if |bytes| < 2 * SECTOR then Ok(map[]) else ReadSlots(bytes, beside, r, 1024)
    ensures |bytes| >= 8192 ==> HoldsTo(bytes, beside, r, 1024, chunks)
    ensures |bytes| < 8192 ==> chunks == Ok(map[])
  {
    if |bytes| >= 2 * SECTOR { SlotsMean(bytes, beside, r, 1024); }
    hide ReadSlot, ReadSlots, HoldsTo;
    var found: map<Pos, RawChunk> := map[];
    if |bytes| < 2 * SECTOR {
      return Ok(found);
    }
    ReadNothing(bytes, beside, r);
    for i := 0 to 1024
      invariant ReadSlots(bytes, beside, r, i) == Ok(found)
    {
      ReadOne(bytes, beside, r, i, i + 1);
      match ReadSlot(bytes, beside, r, i) {
        case Err =>
          StaysErr(bytes, beside, r, i + 1, 1024);
          return Err;
        case Ok(Some(ch)) => found := found[ch.pos := ch];
        case Ok(None) =>
      }
    }
    return Ok(found);
  }

  lemma ReadNothing(bytes: seq<byte>, beside: Beside, r: Pos)
    requires |bytes| >= 2 * SECTOR
    ensures ReadSlots(bytes, beside, r, 0) == Ok(map[])
  {}

  lemma ReadOne(bytes: seq<byte>, beside: Beside, r: Pos, n: nat, next: nat)
    requires |bytes| >= 2 * SECTOR && n < 1024 && next == n + 1
    ensures ReadSlots(bytes, beside, r, next) ==
            match (ReadSlots(bytes, beside, r, n), ReadSlot(bytes, beside, r, n))
            case (Ok(m), Ok(Some(ch))) => Ok(m[ch.pos := ch])
            case (Ok(m), Ok(None)) => Ok(m)
            case _ => Err
  {
    hide ReadSlot;
  }

  lemma {:induction false} StaysErr(bytes: seq<byte>, beside: Beside, r: Pos, n: nat, k: nat)
    requires |bytes| >= 2 * SECTOR && n <= k <= 1024 && ReadSlots(bytes, beside, r, n).Err?
    ensures ReadSlots(bytes, beside, r, k).Err?
  {
    hide ReadSlot;
    if n < k { StaysErr(bytes, beside, r, n, k - 1); }
  }

  // ---- the layout ----

  /** Places in the table strictly ascend. */
  ghost predicate Ascending(s: seq<RawChunk>) {
    forall i, j :: 0 <= i < j < |s| ==> RegionIndex(s[i].pos) < RegionIndex(s[j].pos)
  }

  /** Distinct positions of one region. */
  ghost predicate OneRegion(chunks: seq<RawChunk>, r: Pos) {
    && (forall i :: 0 <= i < |chunks| ==> RegionOf(chunks[i].pos) == r)
    && (forall i, j :: 0 <= i < j < |chunks| ==> chunks[i].pos != chunks[j].pos)
  }

  lemma {:induction false} InInserted(ch: RawChunk, s: seq<RawChunk>, x: RawChunk)
    ensures x in Inserted(ch, s) <==> x == ch || x in s
  {
    if !(s == [] || RegionIndex(ch.pos) < RegionIndex(s[0].pos)) {
      InInserted(ch, s[1..], x);
      assert s == [s[0]] + s[1..];
    }
  }

  lemma {:induction false} InsertedAscends(ch: RawChunk, s: seq<RawChunk>)
    requires Ascending(s) && forall x :: x in s ==> RegionIndex(x.pos) != RegionIndex(ch.pos)
    ensures Ascending(Inserted(ch, s))
  {
    if !(s == [] || RegionIndex(ch.pos) < RegionIndex(s[0].pos)) {
      var rest := Inserted(ch, s[1..]);
      assert s[0] in s;
      InsertedAscends(ch, s[1..]);
      forall j | 0 <= j < |rest| ensures RegionIndex(s[0].pos) < RegionIndex(rest[j].pos) {
        InInserted(ch, s[1..], rest[j]);
      }
    }
  }

  /** Sorting keeps exactly the chunks, in strictly ascending places. */
  lemma {:induction false} OrderedAscends(chunks: seq<RawChunk>, r: Pos)
    requires OneRegion(chunks, r)
    ensures Ascending(Ordered(chunks)) && forall x :: x in Ordered(chunks) <==> x in chunks
  {
    if chunks != [] {
      var init, ch := chunks[..|chunks| - 1], chunks[|chunks| - 1];
      OrderedAscends(init, r);
      assert chunks == init + [ch];
      forall x | x in Ordered(init) ensures RegionIndex(x.pos) != RegionIndex(ch.pos) {
        var i :| 0 <= i < |init| && init[i] == x;
        assert chunks[i] == x;
        IndexRoundTrip(x.pos, r, 0);
        IndexRoundTrip(ch.pos, r, 0);
      }
      InsertedAscends(ch, Ordered(init));
      forall x ensures x in Ordered(chunks) <==> x in chunks { InInserted(ch, Ordered(init), x); }
    }
  }

  lemma {:induction false} PlacesGrow(s: seq<RawChunk>, i: nat)
    requires Ascending(s) && i < |s|
    ensures i <= RegionIndex(s[i].pos)
  {
    hide RegionIndex;
    if i > 0 { PlacesGrow(s, i - 1); }
  }

  /** Every chunk gets at least one sector and at most 255, after all earlier ones,
      and its offset fits the 24 bits of the table. */
  lemma {:induction false} SectorRanges(s: seq<RawChunk>, i: nat, j: nat)
    requires Ascending(s) && i <= j <= |s|
    ensures i < j ==> Offset(s, i) + Sectors(s[i]) <= Offset(s, j)
    ensures 2 <= Offset(s, i) <= Offset(s, j) <= 2 + 255 * j
    ensures j < |s| ==> Offset(s, j) < 0x100_0000 && 1 <= Sectors(s[j]) <= 255
    decreases j
  {
    if j < |s| { PlacesGrow(s, j); }
    if i < j {
      SectorRanges(s, i, j - 1);
    } else if j > 0 {
      SectorRanges(s, j - 1, j - 1);
    }
  }

  lemma {:induction false} BodyAt(s: seq<RawChunk>, n: nat, i: nat)
    requires Ascending(s) && i < n <= |s|
    ensures Offset(s, i) >= 2 && (Offset(s, i) - 2) * SECTOR + Sectors(s[i]) * SECTOR <= |Bodies(s, n)|
    ensures Bodies(s, n)[(Offset(s, i) - 2) * SECTOR..(Offset(s, i) - 2) * SECTOR + Sectors(s[i]) * SECTOR] ==
          Sectored(s[i])
  {
    hide Sectored, Sectors;
    SectorRanges(s, i, n);
    if i < n - 1 {
      BodyAt(s, n - 1, i);
      var from, to := (Offset(s, i) - 2) * SECTOR, (Offset(s, i) - 2) * SECTOR + Sectors(s[i]) * SECTOR;
      assert Bodies(s, n)[from..to] == Bodies(s, n - 1)[from..to];
    }
  }

  predicate EntryIs(h: seq<byte>, i: nat, offset: nat, sectors: nat, timestamp: i32)
    requires |h| >= 2 * SECTOR && i < 1024
  {
    && h[i * 4..i * 4 + 3] == Be(offset, 3)
    && h[i * 4 + 3] as int == sectors
    && h[SECTOR + i * 4..SECTOR + i * 4 + 4] == Be(Unsigned(timestamp), 4)
  }

  predicate EntryEmpty(h: seq<byte>, i: nat)
    requires |h| >= 2 * SECTOR && i < 1024
  {
    h[i * 4 + 3] == 0
  }

  lemma EnteredOwn(h: seq<byte>, ch: RawChunk, offset: nat)
    requires |h| == 2 * SECTOR && Sectors(ch) <= 255
    ensures EntryIs(Entered(h, ch, offset), RegionIndex(ch.pos), offset, Sectors(ch), ch.timestamp)
  {
    hide Sectors, RegionIndex, Be, Unsigned;
  }

  lemma EnteredOther(h: seq<byte>, ch: RawChunk, offset: nat, k: nat)
    requires |h| == 2 * SECTOR && k < 1024 && k != RegionIndex(ch.pos)
    ensures Entered(h, ch, offset)[k * 4..k * 4 + 4] == h[k * 4..k * 4 + 4]
    ensures Entered(h, ch, offset)[SECTOR + k * 4..SECTOR + k * 4 + 4] == h[SECTOR + k * 4..SECTOR + k * 4 + 4]
  {
    hide Sectors, RegionIndex, Be, Unsigned;
  }

  lemma SameEntry(h: seq<byte>, g: seq<byte>, k: nat)
    requires |h| == |g| == 2 * SECTOR && k < 1024
    requires h[k * 4..k * 4 + 4] == g[k * 4..k * 4 + 4]
    requires h[SECTOR + k * 4..SECTOR + k * 4 + 4] == g[SECTOR + k * 4..SECTOR + k * 4 + 4]
    ensures EntryEmpty(h, k) <==> EntryEmpty(g, k)
    ensures forall offset, sectors, timestamp :: EntryIs(h, k, offset, sectors, timestamp) <==>
              EntryIs(g, k, offset, sectors, timestamp)
  {
    assert h[k * 4 + 3] == h[k * 4..k * 4 + 4][3] == g[k * 4..k * 4 + 4][3];
    assert h[k * 4..k * 4 + 3] == h[k * 4..k * 4 + 4][..3];
    assert g[k * 4..k * 4 + 3] == g[k * 4..k * 4 + 4][..3];
  }

  /** The table lists every chunk at its place. */
  lemma {:induction false} HeaderLists(s: seq<RawChunk>, n: nat, i: nat)
    requires Ascending(s) && i < n <= |s|
    ensures EntryIs(Header(s, n), RegionIndex(s[i].pos), Offset(s, i), Sectors(s[i]), s[i].timestamp)
  {
    hide Entered, RegionIndex, EntryIs, Sectors;
    var h, ch := Header(s, n - 1), s[n - 1];
    SectorRanges(s, n - 1, n - 1);
    if i == n - 1 {
      EnteredOwn(h, ch, Offset(s, n - 1));
    } else {
      HeaderLists(s, n - 1, i);
      EnteredOther(h, ch, Offset(s, n - 1), RegionIndex(s[i].pos));
      SameEntry(Header(s, n), h, RegionIndex(s[i].pos));
    }
  }

  /** And nothing anywhere else. */
  lemma {:induction false} HeaderElseEmpty(s: seq<RawChunk>, n: nat, k: nat)
    requires n <= |s| && k < 1024 && forall i :: 0 <= i < n ==> RegionIndex(s[i].pos) != k
    ensures EntryEmpty(Header(s, n), k)
  {
    hide Entered, RegionIndex;
    if n > 0 {
      HeaderElseEmpty(s, n - 1, k);
      EnteredOther(Header(s, n - 1), s[n - 1], Offset(s, n - 1), k);
      SameEntry(Header(s, n), Header(s, n - 1), k);
    }
  }

  lemma {:induction false} SpilledHolds(beside: Beside, s: seq<RawChunk>, n: nat, i: nat)
    requires Ascending(s) && i < n <= |s| && Spills(s[i])
    ensures s[i].pos in Spilled(beside, s, n) && Spilled(beside, s, n)[s[i].pos] == Regular(s[i].payload)
  {
    hide Spills, RegionIndex;
    if i < n - 1 { SpilledHolds(beside, s, n - 1, i); }
  }

  // ---- the bytes that are written ----

  /** Four bytes of a number, highest first. */
  predicate Digits4(bytes: seq<byte>, at: nat, n: nat)
    requires at + 4 <= |bytes|
  {
    && bytes[at] as int == n / 0x100_0000 % 256
    && bytes[at + 1] as int == n / 65536 % 256
    && bytes[at + 2] as int == n / 256 % 256
    && bytes[at + 3] as int == n % 256
  }

  /** The sectors a chunk needs: its body is filled up to whole ones. More than 255
      do not fit the table's count byte. */
  ghost predicate Fills(ch: RawChunk, sectors: nat) {
    if 5 + |ch.payload| > 255 * 4096 then sectors == 1
    else 4096 * (sectors - 1) < 5 + |ch.payload| <= 4096 * sectors
  }

  /** The table entry at place `k`, byte by byte. */
  predicate EntryLaid(out: seq<byte>, k: nat, sector: nat, sectors: nat, timestamp: i32)
    requires |out| >= 2 * SECTOR && k < 1024
  {
    && out[4 * k] as int == sector / 65536
    && out[4 * k + 1] as int == sector / 256 % 256
    && out[4 * k + 2] as int == sector % 256
    && out[4 * k + 3] as int == sectors
    && Digits4(out, 4096 + 4 * k, timestamp as int + if timestamp < 0 then 0x1_0000_0000 else 0)
  }

  /** The sectors from byte `at` on: length, scheme, payload and zeros. A spilled
      chunk leaves an empty body whose scheme has the top bit set. */
  predicate BodyLaid(out: seq<byte>, at: nat, ch: RawChunk, sectors: nat)
    requires at + 4096 * sectors <= |out|
  {
    var spilled := 5 + |ch.payload| > 255 * 4096;
    var length := if spilled then 0 else |ch.payload|;
    && 5 + length <= 4096 * sectors
    && Digits4(out, at, length + 1)
    && Numbered(out[at + 4] as int - (if spilled then 128 else 0), ch.scheme)
    && out[at + 5..at + 5 + length] == (if spilled then [] else ch.payload)
    && forall j :: at + 5 + length <= j < at + 4096 * sectors ==> out[j] == 0
  }

  lemma SectorsFill(ch: RawChunk)
    ensures Fills(ch, Sectors(ch)) && 0 < Sectors(ch) <= 255
    ensures Spills(ch) <==> 5 + |ch.payload| > 255 * 4096
  {}

  lemma DigitsOf(bytes: seq<byte>, at: nat, n: nat)
    requires at + 4 <= |bytes| && bytes[at..at + 4] == Be(n, 4)
    ensures Digits4(bytes, at, n)
  {
    hide Be;
    Be4(n);
    assert bytes[at] == bytes[at..at + 4][0] && bytes[at + 1] == bytes[at..at + 4][1];
    assert bytes[at + 2] == bytes[at..at + 4][2] && bytes[at + 3] == bytes[at..at + 4][3];
  }

  lemma EntryDigits(bytes: seq<byte>, k: nat, offset: nat, sectors: nat, timestamp: i32)
    requires |bytes| >= 2 * SECTOR && k < 1024 && EntryIs(bytes, k, offset, sectors, timestamp) && offset < 0x100_0000
    ensures EntryLaid(bytes, k, offset, sectors, timestamp)
  {
    hide Be;
    Be3(offset);
    var entry := bytes[k * 4..k * 4 + 3];
    assert bytes[4 * k] == entry[0] && bytes[4 * k + 1] == entry[1] && bytes[4 * k + 2] == entry[2];
    DigitsOf(bytes, SECTOR + k * 4, Unsigned(timestamp));
  }

  lemma BodyDigits(bytes: seq<byte>, at: nat, ch: RawChunk)
    requires at + Sectors(ch) * SECTOR <= |bytes| && bytes[at..at + Sectors(ch) * SECTOR] == Sectored(ch)
    ensures BodyLaid(bytes, at, ch, Sectors(ch))
  {
    hide Be, Sectors, Spills, Digits4;
    SectorsFill(ch);
    SectoredFields(ch);
    var n := |Inline(ch)|;
    BodyParts(bytes, at, Sectors(ch) * SECTOR, n);
    DigitsOf(bytes, at, n + 1);
    forall j | at + 5 + n <= j < at + Sectors(ch) * SECTOR ensures bytes[j] == 0 {
      assert bytes[j] == Sectored(ch)[j - at];
    }
  }

  /** Every chunk has its entry at place x + 32 z of its region and its body in the
      sectors the entry gives. */
  lemma WrittenBytes(chunks: seq<RawChunk>, r: Pos, ch: RawChunk) returns (sector: nat, sectors: nat)
    requires OneRegion(chunks, r) && ch in chunks
    ensures Fills(ch, sectors) && sector >= 2 && sectors > 0
    ensures var out := Written(Ordered(chunks));
            && 4096 * (sector + sectors) <= |out|
            && EntryLaid(out, ch.pos.x % 32 + 32 * (ch.pos.z % 32), sector, sectors, ch.timestamp)
            && BodyLaid(out, 4096 * sector, ch, sectors)
  {
    hide Written, Header, EntryIs, EntryLaid, BodyLaid, Sectored, Sectors, Spills, Ordered, Fills;
    OrderedAscends(chunks, r);
    var s := Ordered(chunks);
    assert ch in s;
    var i :| 0 <= i < |s| && s[i] == ch;
    var k := RegionIndex(ch.pos);
    sector, sectors := Offset(s, i), Sectors(ch);
    SectorsFill(ch);
    SectorRanges(s, i, i);
    HeaderLists(s, |s|, i);
    HeaderInFile(s, k);
    BodyInFile(s, i);
    EntryDigits(Written(s), k, sector, sectors, ch.timestamp);
    BodyDigits(Written(s), sector * SECTOR, ch);
  }

  /** A spilled chunk's payload is in its file; every other file is as it was. */
  lemma {:induction false} SpilledElse(beside: Beside, s: seq<RawChunk>, n: nat, p: Pos)
    requires n <= |s| && forall i :: 0 <= i < n && s[i].pos == p ==> 5 + |s[i].payload| <= 255 * 4096
    ensures p in Spilled(beside, s, n) <==> p in beside
    ensures p in beside ==> Spilled(beside, s, n)[p] == beside[p]
  {
    if n > 0 { SpilledElse(beside, s, n - 1, p); }
  }

  // ---- the round trip ----

  /** What reading gives back for a chunk: an empty one is lost, a spilled one is
      marked, one too large to read back is an error. */
  function ReadBack(ch: RawChunk): Result<Option<RawChunk>> {
    if Spills(ch) then if |ch.payload| > MAX_EXTERNAL_CHUNK then Err else Ok(Some(ch.(external := true)))
    else if ch.payload == [] then Ok(None)
    else Ok(Some(ch.(external := false)))
  }

  lemma SchemeBack(ch: RawChunk)
    ensures FromByte(SchemeByte(ch) as int % 128) == Some(ch.scheme)
    ensures SchemeByte(ch) >= 128 <==> Spills(ch)
  {
    hide Spills;
  }

  lemma SignedBack(n: i32)
    ensures Unsigned(n) < 0x1_0000_0000 && Signed(Unsigned(n)) == n
  {}

  /** The fields at the start of a chunk's sectors. */
  lemma SectoredFields(ch: RawChunk)
    ensures |Sectored(ch)| >= SECTOR && 5 + |Inline(ch)| <= |Sectored(ch)|
    ensures Sectored(ch)[..4] == Be(|Inline(ch)| + 1, 4)
    ensures Sectored(ch)[4] == SchemeByte(ch)
    ensures Sectored(ch)[5..5 + |Inline(ch)|] == Inline(ch)
    ensures |Inline(ch)| + 1 < 0x8000_0000
  {
    hide Be, SchemeByte;
  }

  /** One listed place reads back as its chunk. */
  lemma SlotReads(bytes: seq<byte>, beside: Beside, r: Pos, k: nat, ch: RawChunk, offset: nat)
    requires |bytes| >= 2 * SECTOR && k < 1024 && ch.pos == FromRegionIndex(r, k)
    requires EntryIs(bytes, k, offset, Sectors(ch), ch.timestamp)
    requires 2 <= offset < 0x100_0000 && 1 <= Sectors(ch) <= 255
    requires offset * SECTOR + Sectors(ch) * SECTOR <= |bytes|
    requires bytes[offset * SECTOR..offset * SECTOR + Sectors(ch) * SECTOR] == Sectored(ch)
    requires Spills(ch) ==> ch.pos in beside && beside[ch.pos] == Regular(ch.payload)
    ensures ReadSlot(bytes, beside, r, k) == ReadBack(ch)
  {
    hide Be, FromBe, Sectored, Sectors, Spills, SchemeByte, FromRegionIndex, Signed, Unsigned, FromByte;
    Widths();
    BeRoundTrip(offset, 3);
    SignedBack(ch.timestamp);
    BeRoundTrip(Unsigned(ch.timestamp), 4);
    SectoredFields(ch);
    BeRoundTrip(|Inline(ch)| + 1, 4);
    SchemeBack(ch);
    SmallSigned(|Inline(ch)| + 1);
    var start := offset * SECTOR;
    BodyParts(bytes, start, Sectors(ch) * SECTOR, |Inline(ch)|);
  }

  /** Length, scheme and payload of a body, read where it lies in the file. */
  lemma BodyParts(bytes: seq<byte>, start: nat, length: nat, n: nat)
    requires start + length <= |bytes| && 5 + n <= length
    ensures var body := bytes[start..start + length];
            && bytes[start..start + 4] == body[..4] && bytes[start + 4] == body[4]
            && bytes[start + 5..start + 5 + n] == body[5..5 + n]
  {
    PartOf(bytes, start, length, 0, 4);
    PartOf(bytes, start, length, 5, n);
  }

  lemma PartOf(bytes: seq<byte>, start: nat, length: nat, at: nat, n: nat)
    requires start + length <= |bytes| && at + n <= length
    ensures bytes[start + at..start + at + n] == bytes[start..start + length][at..at + n]
  {
    var body := bytes[start..start + length];
    var x, y := bytes[start + at..start + at + n], body[at..at + n];
    assert |x| == |y| == n;
    forall k | 0 <= k < n ensures x[k] == y[k] { assert body[at + k] == bytes[start + at + k]; }
  }

  lemma SmallSigned(n: nat)
    requires n < 0x8000_0000
    ensures Signed(n) as int == n
  {}

  lemma EmptySlot(bytes: seq<byte>, beside: Beside, r: Pos, k: nat)
    requires |bytes| >= 2 * SECTOR && k < 1024 && EntryEmpty(bytes, k)
    ensures ReadSlot(bytes, beside, r, k) == Ok(None)
  {
    hide FromBe, FromByte, Signed;
  }

  lemma HeaderInFile(s: seq<RawChunk>, k: nat)
    requires k < 1024
    ensures |Written(s)| >= 2 * SECTOR
    ensures EntryEmpty(Written(s), k) <==> EntryEmpty(Header(s, |s|), k)
    ensures forall offset, sectors, timestamp :: EntryIs(Written(s), k, offset, sectors, timestamp) <==>
              EntryIs(Header(s, |s|), k, offset, sectors, timestamp)
  {
    hide Header, Bodies, Be;
    var h := Header(s, |s|);
    assert Written(s)[k * 4..k * 4 + 3] == h[k * 4..k * 4 + 3];
    assert Written(s)[SECTOR + k * 4..SECTOR + k * 4 + 4] == h[SECTOR + k * 4..SECTOR + k * 4 + 4];
  }

  /** Each written chunk is read back from its place. */
  lemma WrittenSlot(s: seq<RawChunk>, beside: Beside, r: Pos, i: nat)
    requires Ascending(s) && i < |s| && RegionOf(s[i].pos) == r
    ensures ReadSlot(Written(s), Spilled(beside, s, |s|), r, RegionIndex(s[i].pos)) == ReadBack(s[i])
  {
    hide ReadSlot, Header, EntryIs, Sectored, Sectors, Spills, RegionIndex, RegionOf, FromRegionIndex;
    var k := RegionIndex(s[i].pos);
    IndexRoundTrip(s[i].pos, r, k);
    HeaderLists(s, |s|, i);
    HeaderInFile(s, k);
    SectorRanges(s, i, i);
    BodyAt(s, |s|, i);
    if Spills(s[i]) { SpilledHolds(beside, s, |s|, i); }
    BodyInFile(s, i);
    SlotReads(Written(s), Spilled(beside, s, |s|), r, k, s[i], Offset(s, i));
  }

  lemma BodyInFile(s: seq<RawChunk>, i: nat)
    requires Ascending(s) && i < |s|
    ensures 2 <= Offset(s, i) && Offset(s, i) * SECTOR + Sectors(s[i]) * SECTOR <= |Written(s)|
    ensures Written(s)[Offset(s, i) * SECTOR..Offset(s, i) * SECTOR + Sectors(s[i]) * SECTOR] == Sectored(s[i])
  {
    hide Sectored, Sectors, Header, Bodies, Offset, RegionIndex;
    SectorRanges(s, i, |s|);
    BodyAt(s, |s|, i);
    var h, b := Header(s, |s|), Bodies(s, |s|);
    var from, to := (Offset(s, i) - 2) * SECTOR, (Offset(s, i) - 2) * SECTOR + Sectors(s[i]) * SECTOR;
    SliceAfter(h, b, from, to);
  }

  lemma SliceAfter(h: seq<byte>, b: seq<byte>, from: nat, to: nat)
    requires from <= to <= |b|
    ensures (h + b)[|h| + from..|h| + to] == b[from..to]
  {}

  /** The chunks read from the first `n` places. */
  ghost predicate ReadTo(s: seq<RawChunk>, n: nat, result: Result<map<Pos, RawChunk>>) {
    match result
    case Err => exists i :: 0 <= i < |s| && RegionIndex(s[i].pos) < n && ReadBack(s[i]).Err?
    case Ok(m) =>
      && (forall i :: 0 <= i < |s| && RegionIndex(s[i].pos) < n ==> ReadBack(s[i]).Ok?)
      && (forall i :: 0 <= i < |s| && RegionIndex(s[i].pos) < n && ReadBack(s[i]) != Ok(None) ==>
            s[i].pos in m && Ok(Some(m[s[i].pos])) == ReadBack(s[i]))
      && (forall p :: p in m ==>
          exists i :: 0 <= i < |s| && RegionIndex(s[i].pos) < n && s[i].pos == p && ReadBack(s[i]) != Ok(None))
  }

  lemma {:induction false} SlotsRead(s: seq<RawChunk>, beside: Beside, r: Pos, n: nat)
    requires Ascending(s) && n <= 1024 && forall i :: 0 <= i < |s| ==> RegionOf(s[i].pos) == r
    ensures |Written(s)| >= 2 * SECTOR
    ensures ReadTo(s, n, ReadSlots(Written(s), Spilled(beside, s, |s|), r, n))
  {
    hide ReadSlot, ReadSlots, ReadTo, RegionIndex, RegionOf, Header, Bodies, Spilled, Spills, Written, EntryEmpty,
         EntryIs, ReadBack;
    var bytes, files := Written(s), Spilled(beside, s, |s|);
    HeaderInFile(s, 0);
    if n == 0 {
      ReadNothing(bytes, files, r);
      ReadToNothing(s);
    } else {
      SlotsRead(s, beside, r, n - 1);
      ReadOne(bytes, files, r, n - 1, n);
      if i :| 0 <= i < |s| && RegionIndex(s[i].pos) == n - 1 {
        WrittenSlot(s, beside, r, i);
        ReadToAdd(s, n - 1, n, i, ReadSlots(bytes, files, r, n - 1), ReadSlots(bytes, files, r, n));
      } else {
        HeaderInFile(s, n - 1);
        HeaderElseEmpty(s, |s|, n - 1);
        EmptySlot(bytes, files, r, n - 1);
        ReadToSame(s, n - 1, n, ReadSlots(bytes, files, r, n - 1));
      }
    }
  }

  lemma ReadToNothing(s: seq<RawChunk>)
    ensures ReadTo(s, 0, Ok(map[]))
  {
    hide RegionIndex, ReadBack;
  }

  lemma ReadToSame(s: seq<RawChunk>, n: nat, next: nat, before: Result<map<Pos, RawChunk>>)
    requires next == n + 1 && ReadTo(s, n, before) && forall i :: 0 <= i < |s| ==> RegionIndex(s[i].pos) != n
    ensures ReadTo(s, next, before)
  {
    hide RegionIndex, ReadBack;
  }

  lemma ReadToAdd(s: seq<RawChunk>, n: nat, next: nat, i: nat, before: Result<map<Pos, RawChunk>>,
                  after: Result<map<Pos, RawChunk>>)
    requires Ascending(s) && next == n + 1 && i < |s| && RegionIndex(s[i].pos) == n && ReadTo(s, n, before)
    requires after == match (before, ReadBack(s[i]))
                      case (Ok(m), Ok(Some(ch))) => Ok(m[ch.pos := ch])
                      case (Ok(m), Ok(None)) => Ok(m)
                      case _ => Err
    ensures ReadTo(s, next, after)
  {
    hide RegionIndex, Spills;
    forall j | 0 <= j < |s| && RegionIndex(s[j].pos) == n ensures j == i {}
    if before.Ok? && ReadBack(s[i]).Ok? {
      forall p | p in after.value
        ensures exists j :: 0 <= j < |s| && RegionIndex(s[j].pos) < next && s[j].pos == p && ReadBack(s[j]) != Ok(None)
      {
        if p in before.value {
          var j :| 0 <= j < |s| && RegionIndex(s[j].pos) < n && s[j].pos == p && ReadBack(s[j]) != Ok(None);
          assert RegionIndex(s[j].pos) < next;
        } else {
          assert s[i].pos == p;
        }
      }
    }
  }

  /** The container round trip: reading what was written for distinct positions of
      one region gives every non-empty chunk back with its payload, scheme and
      timestamp and nothing else; it fails exactly when some spilled payload is
      over the cap. */
  lemma RegionRoundTrip(chunks: seq<RawChunk>, beside: Beside, r: Pos)
    requires OneRegion(chunks, r)
    ensures var s := Ordered(chunks);
            |Written(s)| >= 2 * SECTOR
            && match ReadSlots(Written(s), Spilled(beside, s, |s|), r, 1024)
               case Err => exists ch :: ch in chunks && ReadBack(ch).Err?
               case Ok(m) =>
                 && (forall ch :: ch in chunks ==>
                     ReadBack(ch).Ok? && (ch.payload != [] ==> ch.pos in m && m[ch.pos] == ch.(external := Spills(ch))))
                 && (forall p :: p in m ==> exists ch :: ch in chunks && ch.pos == p && ch.payload != [])
  {
    hide ReadSlots, Written, Spilled, RegionIndex, RegionOf, Ordered, Needed;
    var s := Ordered(chunks);
    OrderedAscends(chunks, r);
    forall i | 0 <= i < |s| ensures RegionOf(s[i].pos) == r {
      assert s[i] in chunks;
      var j :| 0 <= j < |chunks| && chunks[j] == s[i];
    }
    SlotsRead(s, beside, r, 1024);
    var result := ReadSlots(Written(s), Spilled(beside, s, |s|), r, 1024);
    match result {
      case Err =>
        var i :| 0 <= i < |s| && ReadBack(s[i]).Err?;
        assert s[i] in chunks;
      case Ok(m) =>
        forall ch | ch in chunks
          ensures ReadBack(ch).Ok? && (ch.payload != [] ==> ch.pos in m && m[ch.pos] == ch.(external := Spills(ch)))
        {
          assert ch in s;
          var i :| 0 <= i < |s| && s[i] == ch;
        }
        forall p | p in m ensures exists ch :: ch in chunks && ch.pos == p && ch.payload != [] {
          var i :| 0 <= i < |s| && s[i].pos == p && ReadBack(s[i]) != Ok(None);
          EmptyFits(s[i]);
          assert s[i] in chunks;
        }
    }
  }

  lemma EmptyFits(ch: RawChunk)
    ensures ch.payload == [] ==> !Spills(ch)
  {}
}
