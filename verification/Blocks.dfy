// Paletted block storage (crates/anvil/src/blockstate.rs) and the block-level
// diff of two chunks (crates/diff/src/world.rs).
module Blocks {
  import opened Collections
  import opened NbtValue

  datatype BlockState = BlockState(name: string, properties: seq<(string, string)>)

  function Get(v: Nbt, key: string): Option<Nbt> {
    if v.Compound? && key in v.m then Some(v.m[key]) else None
  }

  function AsList(v: Option<Nbt>): Option<seq<Nbt>> {
    if v.Some? && v.value.List? then Some(v.value.items) else None
  }

  /** The textual properties, by name. */
  function Properties(m: map<string, Nbt>, keys: seq<string>): seq<(string, string)> {
    if keys == [] then []
    else
      var k := keys[|keys| - 1];
      Properties(m, keys[..|keys| - 1]) + if k in m && m[k].String? then [(k, m[k].text)] else []
  }

  function StateOf(entry: Nbt): Option<BlockState> {
    match Get(entry, "Name")
    case Some(String(name)) =>
      Some(BlockState(name, match Get(entry, "Properties")
                            case Some(Compound(m)) => Properties(m, Sorted(m.Keys))
                            case _ => []))
    case _ => None
  }

  /** The entry names a block: its name, and those of its properties that are texts,
      by ascending name. */
  ghost predicate Names(entry: Nbt, b: BlockState) {
    && entry.Compound? && "Name" in entry.m && entry.m["Name"] == String(b.name)
    && ByName(b.properties)
    && forall p :: p in b.properties <==>
         && "Properties" in entry.m && entry.m["Properties"].Compound?
         && p.0 in entry.m["Properties"].m && entry.m["Properties"].m[p.0] == String(p.1)
  }

  ghost predicate ByName(ps: seq<(string, string)>) {
    forall i, j :: 0 <= i < j < |ps| ==> Below(ps[i].0, ps[j].0) && ps[i].0 != ps[j].0
  }

  lemma {:induction false} PropertiesExact(m: map<string, Nbt>, keys: seq<string>)
    requires Ascending(keys) && Distinct(keys)
    ensures ByName(Properties(m, keys))
    ensures forall p :: p in Properties(m, keys) <==> p.0 in keys && p.0 in m && m[p.0] == String(p.1)
  {
    if keys != [] {
      var init, k := keys[..|keys| - 1], keys[|keys| - 1];
      PropertiesExact(m, init);
      var ps := Properties(m, init);
      assert keys == init + [k];
      forall i | 0 <= i < |ps| ensures Below(ps[i].0, k) && ps[i].0 != k {
        assert ps[i] in ps;
        var n :| 0 <= n < |init| && init[n] == ps[i].0;
        assert keys[n] == ps[i].0 && n < |keys| - 1;
      }
    }
  }

  lemma NoneIn(ps: seq<(string, string)>)
    ensures (forall p :: p !in ps) ==> ps == []
  {
    if ps != [] { assert ps[0] in ps; }
  }

  lemma {:induction false} SameByName(ps: seq<(string, string)>, qs: seq<(string, string)>)
    requires ByName(ps) && ByName(qs) && forall p :: p in ps <==> p in qs
    ensures ps == qs
    decreases |ps|
  {
    if ps == [] {
      NoneIn(qs);
    } else {
      assert ps[0] in ps && ps[0] in qs;
      SameFirst(ps, qs);
      InRest(ps);
      InRest(qs);
      SameByName(ps[1..], qs[1..]);
      assert ps == [ps[0]] + ps[1..] && qs == [qs[0]] + qs[1..];
    }
  }

  lemma SameFirst(ps: seq<(string, string)>, qs: seq<(string, string)>)
    requires ByName(ps) && ByName(qs) && ps != [] && qs != [] && ps[0] in qs && qs[0] in ps
    ensures ps[0] == qs[0]
  {
    var i :| 0 <= i < |qs| && qs[i] == ps[0];
    var j :| 0 <= j < |ps| && ps[j] == qs[0];
    if i > 0 && j > 0 { BelowAntisymmetric(ps[0].0, qs[0].0); }
  }

  lemma InRest(ps: seq<(string, string)>)
    requires ByName(ps) && ps != []
    ensures forall p :: p in ps[1..] <==> p in ps && p != ps[0]
  {
    forall p | p in ps[1..] ensures p in ps && p != ps[0] {
      var k :| 0 <= k < |ps[1..]| && ps[1..][k] == p;
      assert ps[k + 1] == p;
    }
  }

  /** A palette entry is read as the block it names, if it names one. */
  lemma StateExact(entry: Nbt, b: BlockState)
    ensures StateOf(entry) == Some(b) <==> Names(entry, b)
  {
    hide Sorted, Ascending, Distinct, Properties, ByName;
    if entry.Compound? && "Properties" in entry.m && entry.m["Properties"].Compound? {
      var m := entry.m["Properties"].m;
      PropertiesExact(m, Sorted(m.Keys));
      if Names(entry, b) { SameByName(b.properties, Properties(m, Sorted(m.Keys))); }
    } else if Names(entry, b) {
      NoneIn(b.properties);
    } else {
      NoProperties();
    }
  }

  lemma NoProperties()
    ensures ByName([])
  {}

  // ---- bit widths ----

  function Pow2(k: nat): (r: nat)
    ensures r >= 1
  {
    if k == 0 then 1 else 2 * Pow2(k - 1)
  }

  /** How many bits a number needs. */
  function BitLength(n: nat): nat {
    if n == 0 then 0 else 1 + BitLength(n / 2)
  }

  /** `bits_for`: bits per palette index, in a machine word of 64 bits. */
  function BitsFor(len: nat, minBits: nat): nat {
    var needed := if len <= 1 then 0 else if BitLength(len - 1) < 64 then BitLength(len - 1) else 64;
    if needed > minBits then needed else minBits
  }

  lemma {:induction false} BitLengthBounds(n: nat, k: nat)
    ensures n < Pow2(BitLength(n))
    ensures n < Pow2(k) ==> BitLength(n) <= k
  {
    if n > 0 {
      BitLengthBounds(n / 2, if k > 0 then k - 1 else 0);
    }
  }

  /** The width is the least, at least `minBits`, that can name every palette entry. */
  lemma BitsLeast(len: nat, minBits: nat, k: nat)
    requires len <= Pow2(64)
    ensures BitsFor(len, minBits) >= minBits && len <= Pow2(BitsFor(len, minBits))
    ensures k >= minBits && len <= Pow2(k) ==> BitsFor(len, minBits) <= k
  {
    hide Pow2;
    if len > 1 {
      BitLengthBounds(len - 1, 64);
      BitLengthBounds(len - 1, k);
      Pow2Grows(BitLength(len - 1), BitsFor(len, minBits));
    } else {
      Pow2Grows(0, BitsFor(len, minBits));
    }
  }

  lemma {:induction false} Pow2Grows(a: nat, b: nat)
    requires a <= b
    ensures Pow2(a) <= Pow2(b)
  {
    if a < b { Pow2Grows(a, b - 1); }
  }

  function PerLong(bits: nat): nat
    requires bits > 0
  {
    64 / bits
  }

  /** Where entry `idx` lies: its word, and its first bit there. */
  function WordOf(bits: nat, idx: nat): nat
    requires 0 < bits <= 64
  {
    PerLongPositive(bits);
    idx / PerLong(bits)
  }

  function ShiftOf(bits: nat, idx: nat): nat
    requires 0 < bits <= 64
  {
    PerLongPositive(bits);
    idx % PerLong(bits) * bits
  }

  lemma PerLongPositive(bits: nat)
    requires 0 < bits <= 64
    ensures PerLong(bits) >= 1 && PerLong(bits) * bits <= 64
  {
    assert 64 == 64 / bits * bits + 64 % bits;
    assert 64 % bits < bits;
  }

  lemma SlotFits(per: nat, bits: nat, slot: nat)
    requires slot < per
    ensures slot * bits + bits <= per * bits
  {
    assert (slot + 1) * bits <= per * bits;
  }

  lemma SameWord(per: nat, idx: nat, other: nat)
    requires per > 0 && idx < other && idx / per == other / per
    ensures idx % per < other % per
  {
    assert idx == idx / per * per + idx % per && other == other / per * per + other % per;
  }

  /** No entry crosses into the next word, and two entries of a word do not overlap. */
  lemma EntriesFit(bits: nat, idx: nat, other: nat)
    requires 0 < bits <= 64
    ensures ShiftOf(bits, idx) + bits <= 64
    ensures idx < other && WordOf(bits, idx) == WordOf(bits, other) ==>
              ShiftOf(bits, idx) + bits <= ShiftOf(bits, other)
  {
    PerLongPositive(bits);
    hide PerLong;
    var per := PerLong(bits);
    SlotFits(per, bits, idx % per);
    if idx < other && idx / per == other / per {
      SameWord(per, idx, other);
      SlotFits(other % per, bits, idx % per);
    }
  }

  function Unsigned(n: int): nat {
    n % 0x1_0000_0000_0000_0000
  }

  /** The packed number at `idx`, if the array is long enough. */
  function Unpacked(words: seq<int>, bits: nat, idx: nat): Option<nat>
    requires 0 < bits <= 64
  {
    var w := WordOf(bits, idx);
    if w < |words| then Some(Unsigned(words[w]) / Pow2(ShiftOf(bits, idx)) % Pow2(bits)) else None
  }

  /** `v` is the number between the lowest places, which count up to `p`, and the
      places from `p * q` on. */
  ghost predicate Between(value: int, p: nat, q: nat, v: nat) {
    v < q && exists low: nat, high: nat :: low < p && Composed(value, p, q, low, v, high)
  }

  predicate Composed(value: int, p: nat, q: nat, low: nat, v: nat, high: nat) {
    value == low + p * (v + q * high)
  }

  /** The words hold `v` at entry `idx`: as many entries to a word as fit whole, the
      first in the lowest bits. */
  ghost predicate Holds(words: seq<int>, bits: nat, idx: nat, v: nat)
    requires 0 < bits <= 64
  {
    PerLongPositive(bits);
    var w, shift := idx / (64 / bits), idx % (64 / bits) * bits;
    w < |words| && Between(Unsigned(words[w]), Pow2(shift), Pow2(bits), v)
  }

  lemma DigitBetween(value: nat, p: nat, q: nat)
    requires p > 0 && q > 0
    ensures Between(value, p, q, value / p % q)
  {
    var rest := value / p;
    assert Composed(value, p, q, value % p, rest % q, rest / q) by {
      assert value == p * rest + value % p;
      assert rest == q * (rest / q) + rest % q;
    }
  }

  lemma BetweenDigit(value: nat, p: nat, q: nat, v: nat)
    requires p > 0 && q > 0 && Between(value, p, q, v)
    ensures value / p % q == v
  {
    var low: nat, high: nat :| low < p && Composed(value, p, q, low, v, high);
    DigitOf(v + q * high, low, p);
    DigitOf(high, v, q);
  }

  /** Unpacking reads the entry the words hold. */
  lemma UnpackedExact(words: seq<int>, bits: nat, idx: nat, v: nat)
    requires 0 < bits <= 64
    ensures Unpacked(words, bits, idx) == Some(v) <==> Holds(words, bits, idx, v)
  {
    hide Pow2, Between;
    PerLongPositive(bits);
    var w, shift := WordOf(bits, idx), ShiftOf(bits, idx);
    if w < |words| {
      var value := Unsigned(words[w]);
      DigitBetween(value, Pow2(shift), Pow2(bits));
      if Holds(words, bits, idx, v) { BetweenDigit(value, Pow2(shift), Pow2(bits), v); }
    }
  }

  // ---- the packing the decoder inverts ----

  /** One word: entries of `bits` bits each, the first in the lowest place. */
  function Word(entries: seq<nat>, bits: nat): nat {
    if entries == [] then 0 else entries[0] + Pow2(bits) * Word(entries[1..], bits)
  }

  /** The word as the signed long it is stored as. */
  function Stored(word: nat): (long: int)
    requires word < 0x1_0000_0000_0000_0000
    ensures -0x8000_0000_0000_0000 <= long < 0x8000_0000_0000_0000
  {
    if word < 0x8000_0000_0000_0000 then word else word - 0x1_0000_0000_0000_0000
  }

  predicate FitBits(entries: seq<nat>, bits: nat) {
    forall i :: 0 <= i < |entries| ==> entries[i] < Pow2(bits)
  }

  lemma {:induction false} Pow2Add(a: nat, b: nat)
    ensures Pow2(a + b) == Pow2(a) * Pow2(b)
  {
    if a > 0 {
      Pow2Add(a - 1, b);
      assert 2 * (Pow2(a - 1) * Pow2(b)) == (2 * Pow2(a - 1)) * Pow2(b);
    }
  }

  lemma ScaleUp(a: nat, x: nat, y: nat)
    requires x < y
    ensures a * x + a <= a * y
  {
    assert a * y == a * x + a * (y - x);
    assert a * (y - x) == a + a * (y - x - 1);
  }

  lemma SameQuotient(base: nat, q: nat, d: nat, p: nat, e: nat)
    requires d < base && e < base && d + base * q == e + base * p
    ensures q == p && d == e
  {
    if q < p { ScaleUp(base, q, p); }
    if p < q { ScaleUp(base, p, q); }
  }

  lemma DigitOf(q: nat, d: nat, base: nat)
    requires d < base
    ensures (d + base * q) / base == q && (d + base * q) % base == d
  {
    var x := d + base * q;
    assert x == x % base + base * (x / base);
    SameQuotient(base, q, d, x / base, x % base);
  }

  lemma TripleProduct(a: nat, b: nat, c: nat)
    ensures a * (b * c) == (a * b) * c
  {}

  lemma Distribute(a: nat, b: nat, c: nat)
    ensures a * (b + c) == a * b + a * c
  {}

  lemma TwoDigits(a: nat, b: nat, r: nat, s: nat, t: nat)
    requires r < a && s < b
    ensures a * b > 0 && (r + a * (s + b * t)) / (a * b) == t
  {
    Distribute(a, s, b * t);
    TripleProduct(a, b, t);
    ScaleUp(a, s, b);
    DigitOf(t, a * s + r, a * b);
  }

  lemma DivideTwice(x: nat, a: nat, b: nat)
    requires a > 0 && b > 0
    ensures a * b > 0 && x / (a * b) == x / a / b
  {
    var q := x / a;
    var r, s, t := x % a, q % b, q / b;
    assert x == r + a * q && q == s + b * t;
    TwoDigits(a, b, r, s, t);
  }

  /** An entry is found at its place in the word. */
  lemma {:induction false} WordEntry(entries: seq<nat>, bits: nat, k: nat)
    requires FitBits(entries, bits) && k < |entries|
    ensures Word(entries, bits) / Pow2(k * bits) % Pow2(bits) == entries[k]
  {
    hide Pow2;
    var rest := Word(entries[1..], bits);
    DigitOf(rest, entries[0], Pow2(bits));
    if k == 0 {
      assert Pow2(0) == 1 by { PowZero(); }
    } else {
      WordEntry(entries[1..], bits, k - 1);
      assert k * bits == bits + (k - 1) * bits;
      Pow2Add(bits, (k - 1) * bits);
      DivideTwice(Word(entries, bits), Pow2(bits), Pow2((k - 1) * bits));
    }
  }

  lemma PowZero()
    ensures Pow2(0) == 1
  {}

  lemma {:induction false} WordBound(entries: seq<nat>, bits: nat)
    requires FitBits(entries, bits)
    ensures Word(entries, bits) < Pow2(|entries| * bits)
  {
    hide Pow2;
    if entries == [] {
      PowZero();
    } else {
      WordBound(entries[1..], bits);
      assert |entries| * bits == bits + (|entries| - 1) * bits;
      Pow2Add(bits, (|entries| - 1) * bits);
      var p, q, w := Pow2(bits), Pow2((|entries| - 1) * bits), Word(entries[1..], bits);
      ScaleUp(p, w, q);
    }
  }

  /** The entries of word `w`. */
  function Chunk(entries: seq<nat>, bits: nat, w: nat): seq<nat>
    requires 0 < bits <= 64
  {
    PerLongPositive(bits);
    var from := w * PerLong(bits);
    var to := from + PerLong(bits);
    if from >= |entries| then [] else if to > |entries| then entries[from..] else entries[from..to]
  }

  lemma PowSixtyFour()
    ensures Pow2(64) == 0x1_0000_0000_0000_0000
  {
    hide Pow2;
    PowOne();
    Pow2Add(1, 1);
    Pow2Add(2, 2);
    Pow2Add(4, 4);
    Pow2Add(8, 8);
    Pow2Add(16, 16);
    Pow2Add(32, 32);
  }

  lemma PowOne()
    ensures Pow2(1) == 2
  {
    assert Pow2(0) == 1;
  }

  lemma WordInRange(entries: seq<nat>, bits: nat, w: nat)
    requires 0 < bits <= 64 && FitBits(entries, bits)
    ensures Word(Chunk(entries, bits, w), bits) < 0x1_0000_0000_0000_0000
  {
    hide Pow2, Word, FitBits;
    PerLongPositive(bits);
    var chunk := Chunk(entries, bits, w);
    ChunkFits(entries, bits, w);
    WordBound(chunk, bits);
    if |chunk| < PerLong(bits) { SlotFits(PerLong(bits), bits, |chunk|); }
    Pow2Grows(|chunk| * bits, 64);
    PowSixtyFour();
  }

  /** The long array that holds the entries, as many to a word as fit whole. */
  function PackWords(entries: seq<nat>, bits: nat): (words: seq<int>)
    requires 0 < bits <= 64 && FitBits(entries, bits)
  {
    PerLongPositive(bits);
    seq((|entries| + PerLong(bits) - 1) / PerLong(bits), w requires 0 <= w =>
      WordInRange(entries, bits, w);
      Stored(Word(Chunk(entries, bits, w), bits)))
  }

  /** Unpacking gives back every packed entry. */
  lemma UnpackedIsPacked(entries: seq<nat>, bits: nat, idx: nat)
    requires 0 < bits <= 64 && FitBits(entries, bits) && idx < |entries|
    ensures Unpacked(PackWords(entries, bits), bits, idx) == Some(entries[idx])
  {
    hide Pow2, Word, FitBits;
    PerLongPositive(bits);
    var per, w := PerLong(bits), WordOf(bits, idx);
    InWord(per, idx, |entries|);
    var chunk, k := Chunk(entries, bits, w), idx % per;
    assert chunk[k] == entries[idx];
    ChunkFits(entries, bits, w);
    WordEntry(chunk, bits, k);
    WordInRange(entries, bits, w);
    StoredBack(Word(chunk, bits));
    WordsEnough(per, idx, |entries|);
  }

  lemma WordsEnough(per: nat, idx: nat, n: nat)
    requires per > 0 && idx < n
    ensures idx / per < (n + per - 1) / per
  {
    var q, m := idx / per, (n + per - 1) / per;
    assert idx == per * q + idx % per && n + per - 1 == per * m + (n + per - 1) % per;
    if m < q { ScaleUp(per, m, q); }
  }

  lemma InWord(per: nat, idx: nat, n: nat)
    requires per > 0 && idx < n
    ensures idx / per * per + idx % per == idx && idx / per * per <= idx < idx / per * per + per
  {}

  lemma ChunkFits(entries: seq<nat>, bits: nat, w: nat)
    requires 0 < bits <= 64 && FitBits(entries, bits)
    ensures FitBits(Chunk(entries, bits, w), bits)
  {
    hide Pow2, PerLong;
  }

  lemma StoredBack(word: nat)
    requires word < 0x1_0000_0000_0000_0000
    ensures Unsigned(Stored(word)) == word
  {}

  lemma BitsInRange(len: nat, minBits: nat)
    requires 1 <= minBits <= 64
    ensures 0 < BitsFor(len, minBits) <= 64
  {}

  /** `palette_index`: without packed data every entry is the first of the palette. */
  function PaletteIndex(data: Option<Nbt>, len: nat, minBits: nat, idx: nat): Option<nat>
    requires 1 <= minBits <= 64
  {
    BitsInRange(len, minBits);
    match data
    case Some(LongArray(words)) => Unpacked(words, BitsFor(len, minBits), idx)
    case _ => Some(0)
  }

  // ---- sections ----

  function SectionY(s: Nbt): Option<int> {
    match Get(s, "Y")
    case Some(Byte(n)) => Some(n)
    case Some(Int(n)) => Some(n)
    case Some(Short(n)) => Some(n)
    case _ => None
  }

  function SectionsOf(chunk: Nbt): Option<Nbt> {
    match Get(chunk, "sections")
    case Some(s) => Some(s)
    case None =>
      match Get(chunk, "Level")
      case Some(level) => Get(level, "Sections")
      case None => None
  }

  function FirstWithY(sections: seq<Nbt>, sy: int): Option<Nbt> {
    if sections == [] then None
    else if SectionY(sections[0]) == Some(sy) then Some(sections[0])
    else FirstWithY(sections[1..], sy)
  }

  /** `section_at` for a block height in section `sy`. */
  function SectionAt(chunk: Nbt, sy: int): Option<Nbt> {
    match AsList(SectionsOf(chunk))
    case Some(sections) => FirstWithY(sections, sy)
    case None => None
  }

  function SectionYs(chunk: Nbt): seq<int> {
    match AsList(SectionsOf(chunk))
    case Some(sections) => YsOf(sections)
    case None => []
  }

  function YsOf(sections: seq<Nbt>): seq<int> {
    if sections == [] then []
    else (match SectionY(sections[0]) case Some(y) => [y] case None => []) + YsOf(sections[1..])
  }

  lemma {:induction false} FirstExists(sections: seq<Nbt>, sy: int)
    ensures FirstWithY(sections, sy).Some? <==> sy in YsOf(sections)
  {
    if sections != [] { FirstExists(sections[1..], sy); }
  }

  lemma PresentSections(chunk: Nbt, sy: int)
    ensures SectionAt(chunk, sy).Some? <==> sy in SectionYs(chunk)
  {
    var sections := AsList(SectionsOf(chunk));
    if sections.Some? { FirstExists(sections.value, sy); }
  }

  /** A section's palette and packed data; an empty palette counts as none. */
  function Palette(section: Nbt): Option<(seq<Nbt>, Option<Nbt>)> {
    match Get(section, "block_states")
    case None => None
    case Some(bs) =>
      match AsList(Get(bs, "palette"))
      case Some(palette) => if palette == [] then None else Some((palette, Get(bs, "data")))
      case None => None
  }

  function CellIndex(x: int, y: int, z: int): nat {
    y % 16 * 256 + z % 16 * 16 + x % 16
  }

  function CellState(palette: seq<Nbt>, data: Option<Nbt>, idx: nat): Option<BlockState> {
    match PaletteIndex(data, |palette|, 4, idx)
    case Some(pi) => if pi < |palette| then StateOf(palette[pi]) else None
    case None => None
  }

  /** `block_at`. */
  function BlockAt(chunk: Nbt, x: int, y: int, z: int): Option<BlockState> {
    match SectionAt(chunk, y / 16)
    case None => None
    case Some(section) =>
      match Palette(section)
      case None => None
      case Some(p) => CellState(p.0, p.1, CellIndex(x, y, z))
  }

  // ---- what a block is read from ----

  /** The chunk's sections: its list "sections", or without one the older list
      "Sections" of its "Level". */
  ghost predicate HasSections(chunk: Nbt, sections: seq<Nbt>) {
    && chunk.Compound?
    && if "sections" in chunk.m then chunk.m["sections"] == List(sections)
       else
         && "Level" in chunk.m && chunk.m["Level"].Compound?
         && "Sections" in chunk.m["Level"].m && chunk.m["Level"].m["Sections"] == List(sections)
  }

  predicate NumberedAs(section: Nbt, sy: int) {
    section.Compound? && "Y" in section.m && section.m["Y"] in [Byte(sy), Short(sy), Int(sy)]
  }

  predicate FirstNumbered(sections: seq<Nbt>, i: nat, sy: int) {
    && i < |sections| && NumberedAs(sections[i], sy)
    && forall j :: 0 <= j < i ==> !NumberedAs(sections[j], sy)
  }

  /** The section's block palette, which is not empty, and its packed data if any. */
  ghost predicate HasPalette(section: Nbt, palette: seq<Nbt>, data: Option<Nbt>) {
    && section.Compound? && "block_states" in section.m && section.m["block_states"].Compound?
    && var states := section.m["block_states"].m;
       && "palette" in states && states["palette"] == List(palette) && palette != []
       && data == if "data" in states then Some(states["data"]) else None
  }

  /** The least width from 4 bits on that names every entry, at most a whole word. */
  predicate Width(len: nat, bits: nat) {
    4 <= bits <= 64 && (len <= Pow2(bits) || bits == 64) && (bits > 4 ==> len > Pow2(bits - 1))
  }

  /** The cell's number in the palette: read from the packed data if there is any,
      the first entry otherwise. */
  ghost predicate Numbers(data: Option<Nbt>, len: nat, cell: nat, pi: nat) {
    if data.Some? && data.value.LongArray?
    then exists bits :: Width(len, bits) && Holds(data.value.longs, bits, cell, pi)
    else pi == 0
  }

  ghost predicate SectionShows(section: Nbt, cell: nat, b: BlockState) {
    exists palette, data, pi: nat ::
      HasPalette(section, palette, data) && Numbers(data, |palette|, cell, pi) && pi < |palette|
      && Names(palette[pi], b)
  }

  /** The chunk shows block `b` at the coordinate: cells run along x first, then z,
      then y. */
  ghost predicate Shows(chunk: Nbt, x: int, y: int, z: int, b: BlockState) {
    exists sections, i ::
      && HasSections(chunk, sections) && FirstNumbered(sections, i, y / 16)
      && SectionShows(sections[i], x % 16 + 16 * (z % 16) + 256 * (y % 16), b)
  }

  lemma {:induction false} FirstIs(sections: seq<Nbt>, sy: int, section: Nbt) returns (i: nat)
    requires FirstWithY(sections, sy) == Some(section)
    ensures FirstNumbered(sections, i, sy) && sections[i] == section
  {
    YIs(sections[0], sy);
    if NumberedAs(sections[0], sy) {
      i := 0;
    } else {
      var k := FirstIs(sections[1..], sy, section);
      i := k + 1;
      forall j | 0 <= j < i ensures !NumberedAs(sections[j], sy) {
        if j > 0 { assert sections[j] == sections[1..][j - 1]; }
      }
    }
  }

  lemma {:induction false} FirstFound(sections: seq<Nbt>, i: nat, sy: int)
    requires FirstNumbered(sections, i, sy)
    ensures FirstWithY(sections, sy) == Some(sections[i])
  {
    YIs(sections[0], sy);
    if i > 0 {
      assert sections[i] == sections[1..][i - 1];
      forall j | 0 <= j < i - 1 ensures !NumberedAs(sections[1..][j], sy) {
        assert sections[1..][j] == sections[j + 1];
      }
      FirstFound(sections[1..], i - 1, sy);
    }
  }

  lemma YIs(section: Nbt, sy: int)
    ensures SectionY(section) == Some(sy) <==> NumberedAs(section, sy)
  {}

  lemma SectionsAre(chunk: Nbt, sections: seq<Nbt>)
    ensures AsList(SectionsOf(chunk)) == Some(sections) <==> HasSections(chunk, sections)
  {}

  lemma WidthIs(len: nat, bits: nat)
    ensures Width(len, bits) <==> bits == BitsFor(len, 4)
  {
    hide Pow2, BitLength;
    PowSixtyFour();
    if len > 1 {
      BitLengthBounds(len - 1, bits);
      if bits > 0 { BitLengthBounds(len - 1, bits - 1); }
      BitLengthBounds(len - 1, 64);
      var needed := BitLength(len - 1);
      if bits < needed { Pow2Grows(bits, needed - 1); }
      if needed < bits { Pow2Grows(needed, bits - 1); }
      if needed < bits { Pow2Grows(needed, bits); }
    }
    SmallPowers(bits);
  }

  lemma SmallPowers(k: nat)
    ensures k > 0 ==> Pow2(k - 1) >= 1 && Pow2(k) == 2 * Pow2(k - 1)
    ensures k >= 4 ==> Pow2(k) >= 16
  {
    if k >= 4 { Pow2Grows(4, k); }
    assert Pow2(4) == 16;
  }

  lemma NumberIs(data: Option<Nbt>, len: nat, cell: nat, pi: nat)
    ensures PaletteIndex(data, len, 4, cell) == Some(pi) <==> Numbers(data, len, cell, pi)
  {
    hide Unpacked, Holds, BitsFor, Width;
    BitsInRange(len, 4);
    var bits := BitsFor(len, 4);
    forall k ensures Width(len, k) <==> k == bits { WidthIs(len, k); }
    if data.Some? && data.value.LongArray? { UnpackedExact(data.value.longs, bits, cell, pi); }
  }

  lemma PaletteIs(section: Nbt, palette: seq<Nbt>, data: Option<Nbt>)
    ensures Palette(section) == Some((palette, data)) <==> HasPalette(section, palette, data)
  {}

  /** A cell of a section is what the section's palette and packed data say. */
  lemma CellExact(section: Nbt, cell: nat, b: BlockState)
    ensures (Palette(section).Some? && CellState(Palette(section).value.0, Palette(section).value.1, cell) == Some(b))
       <==> SectionShows(section, cell, b)
  {
    hide HasPalette, Palette, PaletteIndex, Numbers, Names, StateOf;
    if Palette(section).Some? && CellState(Palette(section).value.0, Palette(section).value.1, cell) == Some(b) {
      var (palette, data) := Palette(section).value;
      PaletteIs(section, palette, data);
      var pi := PaletteIndex(data, |palette|, 4, cell).value;
      NumberIs(data, |palette|, cell, pi);
      StateExact(palette[pi], b);
    }
    if SectionShows(section, cell, b) {
      var palette, data, pi: nat :| HasPalette(section, palette, data) && Numbers(data, |palette|, cell, pi)
                                    && pi < |palette| && Names(palette[pi], b);
      PaletteIs(section, palette, data);
      NumberIs(data, |palette|, cell, pi);
      StateExact(palette[pi], b);
    }
  }

  /** Asking for one block gives what the chunk shows there, and nothing if it shows
      nothing. */
  lemma BlockExact(chunk: Nbt, x: int, y: int, z: int, b: BlockState)
    ensures BlockAt(chunk, x, y, z) == Some(b) <==> Shows(chunk, x, y, z, b)
  {
    hide CellState, Palette, SectionShows, HasSections, NumberedAs, FirstWithY, SectionsOf;
    var cell := CellIndex(x, y, z);
    if SectionAt(chunk, y / 16).Some? {
      var sections := AsList(SectionsOf(chunk)).value;
      SectionsAre(chunk, sections);
      var i := FirstIs(sections, y / 16, SectionAt(chunk, y / 16).value);
      CellExact(sections[i], cell, b);
    }
    if Shows(chunk, x, y, z, b) {
      var sections, i :| HasSections(chunk, sections) && FirstNumbered(sections, i, y / 16)
                         && SectionShows(sections[i], x % 16 + 16 * (z % 16) + 256 * (y % 16), b);
      SectionsAre(chunk, sections);
      FirstFound(sections, i, y / 16);
      CellExact(sections[i], cell, b);
    }
  }

  const CELLS := 4096

  predicate AllDecode(palette: seq<Nbt>) {
    forall i :: 0 <= i < |palette| ==> StateOf(palette[i]).Some?
  }

  predicate AllCells(palette: seq<Nbt>, data: Option<Nbt>, n: nat) {
    forall idx :: 0 <= idx < n ==> CellState(palette, data, idx).Some?
  }

  function CellsUpTo(palette: seq<Nbt>, data: Option<Nbt>, n: nat): seq<BlockState>
    requires AllCells(palette, data, n)
  {
    seq(n, idx requires 0 <= idx < n => CellState(palette, data, idx).value)
  }

  /** The cells of section `sy`: all of them, or none when the section or its
      palette is missing, some palette entry is no block state, or some cell has
      no entry. */
  function Cells(chunk: Nbt, sy: int): Option<seq<BlockState>> {
    match SectionAt(chunk, sy)
    case None => None
    case Some(section) =>
      match Palette(section)
      case None => None
      case Some(p) => if AllDecode(p.0) && AllCells(p.0, p.1, CELLS) then Some(CellsUpTo(p.0, p.1, CELLS)) else None
  }

  /** `section_blocks`. */
  method SectionBlocks(chunk: Nbt, sy: int) returns (r: Option<seq<BlockState>>)
    ensures r == Cells(chunk, sy)
  {
    hide StateOf, SectionAt, BitsFor, Pow2, WordOf, ShiftOf;
    var section := SectionAt(chunk, sy);
    if section.None? {
      return None;
    }
    var p := Palette(section.value);
    if p.None? {
      return None;
    }
    var (palette, data) := p.value;
    var states := DecodePalette(palette);
    if states.None? {
      return None;
    }
    var out := [];
    if data.Some? && data.value.LongArray? {
      BitsInRange(|palette|, 4);
      var bits := BitsFor(|palette|, 4);
      var words := data.value.longs;
      for idx := 0 to CELLS
        invariant AllCells(palette, data, idx)
        invariant out == CellsUpTo(palette, data, idx)
      {
        var li, off := WordOf(bits, idx), ShiftOf(bits, idx);
        if li >= |words| {
          assert CellState(palette, data, idx).None?;
          return None;
        }
        var pi := Unsigned(words[li]) / Pow2(off) % Pow2(bits);
        if pi >= |states.value| {
          assert CellState(palette, data, idx).None?;
          return None;
        }
        assert CellState(palette, data, idx) == Some(states.value[pi]);
        out := out + [states.value[pi]];
      }
    } else {
      assert forall idx: nat :: CellState(palette, data, idx) == Some(states.value[0]);
      out := seq(CELLS, _ => states.value[0]);
      assert AllCells(palette, data, CELLS);
      assert out == CellsUpTo(palette, data, CELLS);
    }
    return Some(out);
  }

  method DecodePalette(palette: seq<Nbt>) returns (states: Option<seq<BlockState>>)
    ensures states.Some? <==> AllDecode(palette)
    ensures states.Some? ==> |states.value| == |palette| && forall i :: 0 <= i < |palette| ==>
          StateOf(palette[i]) == Some(states.value[i])
  {
    hide StateOf;
    var out := [];
    for i := 0 to |palette|
      invariant |out| == i && forall j :: 0 <= j < i ==> StateOf(palette[j]) == Some(out[j])
    {
      var state := StateOf(palette[i]);
      if state.None? {
        return None;
      }
      out := out + [state.value];
    }
    return Some(out);
  }

  lemma CellBounds(x: int, y: int, z: int)
    ensures CellIndex(x, y, z) < CELLS
  {}

  /** Where a section decodes, asking for one block and decoding the whole section agree. */
  lemma BlockInSection(chunk: Nbt, x: int, y: int, z: int)
    requires Cells(chunk, y / 16).Some?
    ensures BlockAt(chunk, x, y, z) == Some(Cells(chunk, y / 16).value[CellIndex(x, y, z)])
  {
    hide CellState, SectionAt, Palette, CellIndex;
    CellBounds(x, y, z);
  }

  /** Section `sy` is there with a palette of blocks, and each of its 4096 cells shows one. */
  ghost predicate Decodable(chunk: Nbt, sy: int) {
    exists sections, i, palette, data ::
      && HasSections(chunk, sections) && FirstNumbered(sections, i, sy) && HasPalette(sections[i], palette, data)
      && (forall k :: 0 <= k < |palette| ==> IsBlock(palette[k]))
      && forall cell :: 0 <= cell < 4096 ==> CellShown(sections[i], cell)
  }

  ghost predicate IsBlock(entry: Nbt) {
    exists b :: Names(entry, b)
  }

  ghost predicate CellShown(section: Nbt, cell: nat) {
    exists b :: SectionShows(section, cell, b)
  }

  lemma PaletteDecodes(palette: seq<Nbt>)
    ensures AllDecode(palette) <==> forall k :: 0 <= k < |palette| ==> IsBlock(palette[k])
  {
    hide StateOf, Names;
    forall k | 0 <= k < |palette| ensures StateOf(palette[k]).Some? <==> IsBlock(palette[k]) {
      if StateOf(palette[k]).Some? { StateExact(palette[k], StateOf(palette[k]).value); }
      if b :| Names(palette[k], b) { StateExact(palette[k], b); }
    }
  }

  lemma CellsShown(section: Nbt, palette: seq<Nbt>, data: Option<Nbt>)
    requires Palette(section) == Some((palette, data))
    ensures AllCells(palette, data, CELLS) <==> forall cell :: 0 <= cell < 4096 ==> CellShown(section, cell)
    ensures forall cell, b :: 0 <= cell < 4096 && CellState(palette, data, cell) == Some(b) ==>
              SectionShows(section, cell, b)
  {
    hide CellState, SectionShows, Palette;
    forall cell: nat, b ensures CellState(palette, data, cell) == Some(b) <==> SectionShows(section, cell, b) {
      CellExact(section, cell, b);
    }
    forall cell: nat ensures CellState(palette, data, cell).Some? <==> CellShown(section, cell) {
      if CellState(palette, data, cell).Some? {
        assert SectionShows(section, cell, CellState(palette, data, cell).value);
      }
    }
  }

  /** A section is decoded exactly when it is decodable as a whole, and then every
      cell is the block shown there. */
  lemma SectionExact(chunk: Nbt, sy: int)
    ensures Cells(chunk, sy).Some? <==> Decodable(chunk, sy)
    ensures Cells(chunk, sy).Some? ==>
              && |Cells(chunk, sy).value| == 4096
              && exists sections, i :: HasSections(chunk, sections) && FirstNumbered(sections, i, sy) &&
                   forall cell :: 0 <= cell < 4096 ==> SectionShows(sections[i], cell, Cells(chunk, sy).value[cell])
  {
    hide CellState, Palette, HasPalette, SectionShows, CellShown, IsBlock, HasSections, NumberedAs, FirstWithY,
         SectionsOf, AllDecode;
    if Cells(chunk, sy).Some? {
      var sections := AsList(SectionsOf(chunk)).value;
      SectionsAre(chunk, sections);
      var i := FirstIs(sections, sy, SectionAt(chunk, sy).value);
      var (palette, data) := Palette(sections[i]).value;
      PaletteIs(sections[i], palette, data);
      PaletteDecodes(palette);
      CellsShown(sections[i], palette, data);
    }
    if Decodable(chunk, sy) {
      var sections, i, palette, data :|
        && HasSections(chunk, sections) && FirstNumbered(sections, i, sy) && HasPalette(sections[i], palette, data)
        && (forall k :: 0 <= k < |palette| ==> IsBlock(palette[k]))
        && forall cell :: 0 <= cell < 4096 ==> CellShown(sections[i], cell);
      SectionsAre(chunk, sections);
      FirstFound(sections, i, sy);
      PaletteIs(sections[i], palette, data);
      PaletteDecodes(palette);
      CellsShown(sections[i], palette, data);
    }
  }

  /** With a readable palette the section decodes exactly when each of its blocks can
      be asked for. */
  lemma SectionDecodesExactly(chunk: Nbt, sy: int, section: Nbt, palette: seq<Nbt>, data: Option<Nbt>)
    requires SectionAt(chunk, sy) == Some(section) && Palette(section) == Some((palette, data)) && AllDecode(palette)
    ensures Cells(chunk, sy).Some? <==> forall x, y, z :: y / 16 == sy ==> BlockAt(chunk, x, y, z).Some?
  {
    hide CellState, SectionAt, Palette;
    if Cells(chunk, sy).Some? {
      forall x, y, z | y / 16 == sy ensures BlockAt(chunk, x, y, z).Some? { BlockInSection(chunk, x, y, z); }
    } else {
      var idx :| 0 <= idx < CELLS && CellState(palette, data, idx).None?;
      var x, y, z := idx % 16, sy * 16 + idx / 256, idx % 256 / 16;
      CellAt(idx, sy);
      assert BlockAt(chunk, x, y, z).None?;
    }
  }

  lemma CellAt(idx: nat, sy: int)
    requires idx < CELLS
    ensures CellIndex(idx % 16, sy * 16 + idx / 256, idx % 256 / 16) == idx
    ensures (sy * 16 + idx / 256) / 16 == sy
  {
    assert 0 <= idx / 256 < 16;
    assert (sy * 16 + idx / 256) % 16 == idx / 256;
    assert 0 <= idx % 256 / 16 < 16;
  }

  predicate InPalette(palette: seq<Nbt>, indices: seq<nat>) {
    0 < |palette| <= Pow2(64) && forall i :: 0 <= i < |indices| ==> indices[i] < |palette|
  }

  /** Indices into the palette fit the width chosen for it. */
  lemma IndicesFit(palette: seq<Nbt>, indices: seq<nat>)
    requires InPalette(palette, indices)
    ensures FitBits(indices, BitsFor(|palette|, 4)) && 0 < BitsFor(|palette|, 4) <= 64
  {
    hide BitsFor, Pow2;
    BitsLeast(|palette|, 4, 4);
    BitsInRange(|palette|, 4);
  }

  /** The words a section stores for its cells. */
  function SectionWords(palette: seq<Nbt>, indices: seq<nat>): seq<int>
    requires InPalette(palette, indices)
  {
    IndicesFit(palette, indices);
    PackWords(indices, BitsFor(|palette|, 4))
  }

  /** A section stored by packing palette indices gives back, at every coordinate,
      the palette entry stored there. */
  lemma PackedSectionReads(chunk: Nbt, section: Nbt, palette: seq<Nbt>, indices: seq<nat>, x: int, y: int, z: int)
    requires |indices| == CELLS && InPalette(palette, indices)
    requires SectionAt(chunk, y / 16) == Some(section)
    requires Palette(section) == Some((palette, Some(LongArray(SectionWords(palette, indices)))))
    ensures BlockAt(chunk, x, y, z) == StateOf(palette[indices[CellIndex(x, y, z)]])
  {
    hide SectionAt, Palette, CellIndex, StateOf, FitBits, BitsFor, PackWords, Unpacked;
    CellBounds(x, y, z);
    IndicesFit(palette, indices);
    UnpackedIsPacked(indices, BitsFor(|palette|, 4), CellIndex(x, y, z));
  }

  // ---- the diff of two chunks ----

  datatype BlockEdit = BlockEdit(x: int, y: int, z: int, was: Option<string>, now: Option<string>)

  function Joined(ps: seq<(string, string)>): string {
    if ps == [] then ""
    else if |ps| == 1 then ps[0].0 + "=" + ps[0].1
    else ps[0].0 + "=" + ps[0].1 + "," + Joined(ps[1..])
  }

  function Shown(b: Option<BlockState>): Option<string> {
    match b
    case None => None
    case Some(s) => Some(if s.properties == [] then s.name else s.name + "[" + Joined(s.properties) + "]")
  }

  function CellOf(cells: Option<seq<BlockState>>, idx: nat): Option<BlockState> {
    if cells.Some? && idx < |cells.value| then Some(cells.value[idx]) else None
  }

  function EditAt(cx: int, cz: int, sy: int, idx: nat, o: Option<BlockState>, n: Option<BlockState>): BlockEdit {
    BlockEdit(cx * 16 + idx % 256 % 16, sy * 16 + idx / 256, cz * 16 + idx % 256 / 16, Shown(o), Shown(n))
  }

  function SectionEdits(ab: Option<seq<BlockState>>, bb: Option<seq<BlockState>>, cx: int, cz: int, sy: int,
                        n: nat): seq<BlockEdit> {
    if n == 0 then []
    else
      SectionEdits(ab, bb, cx, cz, sy, n - 1)
      + if CellOf(ab, n - 1) != CellOf(bb, n - 1) then [EditAt(cx, cz, sy, n - 1, CellOf(ab, n - 1), CellOf(bb, n - 1))]
          else []
  }

  function Edits(a: Nbt, b: Nbt, cx: int, cz: int, ys: seq<int>): seq<BlockEdit> {
    if ys == [] then []
    else
      var sy := ys[|ys| - 1];
      Edits(a, b, cx, cz, ys[..|ys| - 1]) + SectionEdits(Cells(a, sy), Cells(b, sy), cx, cz, sy, CELLS)
  }

  function Placed(y: int, s: seq<int>): seq<int> {
    if s == [] || y <= s[0] then [y] + s else [s[0]] + Placed(y, s[1..])
  }

  function SortedInts(s: seq<int>): seq<int> {
    if s == [] then [] else Placed(s[|s| - 1], SortedInts(s[..|s| - 1]))
  }

  /** Drops an element equal to the one before it. */
  function Deduped(s: seq<int>): seq<int> {
    if |s| <= 1 then s
    else Deduped(s[..|s| - 1]) + if s[|s| - 1] == s[|s| - 2] then [] else [s[|s| - 1]]
  }

  function Levels(a: Nbt, b: Nbt): seq<int> {
    Deduped(SortedInts(SectionYs(a) + SectionYs(b)))
  }

  /** `block_edits_between`. */
  method BlockEditsBetween(a: Nbt, b: Nbt, cx: int, cz: int) returns (out: seq<BlockEdit>)
    ensures out == Edits(a, b, cx, cz, Levels(a, b))
  {
    hide Cells, SectionYs, Levels, SectionEdits;
    var ys := Levels(a, b);
    out := [];
    for i := 0 to |ys|
      invariant out == Edits(a, b, cx, cz, ys[..i])
    {
      assert ys[..i + 1][..i] == ys[..i];
      var ab := SectionBlocks(a, ys[i]);
      var bb := SectionBlocks(b, ys[i]);
      if ab == bb {
        NothingToEdit(ab, cx, cz, ys[i], CELLS);
        assert out + [] == out;
        continue;
      }
      out := EditCells(ab, bb, cx, cz, ys[i], out);
    }
    assert ys[..|ys|] == ys;
  }

  method EditCells(ab: Option<seq<BlockState>>, bb: Option<seq<BlockState>>, cx: int, cz: int, sy: int,
                   before: seq<BlockEdit>) returns (out: seq<BlockEdit>)
    ensures out == before + SectionEdits(ab, bb, cx, cz, sy, CELLS)
  {
    hide EditAt, CellOf;
    out := before;
    for idx := 0 to CELLS
      invariant out == before + SectionEdits(ab, bb, cx, cz, sy, idx)
    {
      var o, n := CellOf(ab, idx), CellOf(bb, idx);
      if o != n {
        Assoc(before, SectionEdits(ab, bb, cx, cz, sy, idx), [EditAt(cx, cz, sy, idx, o, n)]);
        out := out + [EditAt(cx, cz, sy, idx, o, n)];
      } else {
        assert SectionEdits(ab, bb, cx, cz, sy, idx) + [] == SectionEdits(ab, bb, cx, cz, sy, idx);
      }
    }
  }

  lemma {:induction false} NothingToEdit(cells: Option<seq<BlockState>>, cx: int, cz: int, sy: int, n: nat)
    ensures SectionEdits(cells, cells, cx, cz, sy, n) == []
  {
    if n > 0 { NothingToEdit(cells, cx, cz, sy, n - 1); }
  }

  // ---- what the diff lists ----

  ghost predicate Strict(s: seq<int>) {
    forall i, j :: 0 <= i < j < |s| ==> s[i] < s[j]
  }

  ghost predicate Weak(s: seq<int>) {
    forall i, j :: 0 <= i < j < |s| ==> s[i] <= s[j]
  }

  lemma {:induction false} PlacedSorts(y: int, s: seq<int>)
    requires Weak(s)
    ensures Weak(Placed(y, s)) && forall x :: x in Placed(y, s) <==> x == y || x in s
  {
    if !(s == [] || y <= s[0]) {
      PlacedSorts(y, s[1..]);
      assert s == [s[0]] + s[1..];
      var rest := Placed(y, s[1..]);
      forall j | 0 <= j < |rest| ensures s[0] <= rest[j] { assert rest[j] in rest; }
    }
  }

  lemma {:induction false} SortedSorts(s: seq<int>)
    ensures Weak(SortedInts(s)) && forall x :: x in SortedInts(s) <==> x in s
  {
    if s != [] {
      SortedSorts(s[..|s| - 1]);
      PlacedSorts(s[|s| - 1], SortedInts(s[..|s| - 1]));
      assert s == s[..|s| - 1] + [s[|s| - 1]];
    }
  }

  lemma {:induction false} DedupedStrict(s: seq<int>)
    requires Weak(s)
    ensures Strict(Deduped(s)) && forall x :: x in Deduped(s) <==> x in s
    ensures s != [] ==> Deduped(s) != [] && Deduped(s)[|Deduped(s)| - 1] == s[|s| - 1]
  {
    if |s| > 1 {
      var init, last := s[..|s| - 1], s[|s| - 1];
      DedupedStrict(init);
      assert s == init + [last];
      var r := Deduped(init);
      assert r[|r| - 1] == s[|s| - 2];
      if last == s[|s| - 2] {
        assert Deduped(s) == r + [] == r;
      } else {
        assert Deduped(s) == r + [last];
        hide Deduped;
        assert forall i :: 0 <= i < |r| ==> r[i] <= r[|r| - 1] < last;
      }
    }
  }

  lemma LevelsExact(a: Nbt, b: Nbt)
    ensures Strict(Levels(a, b))
    ensures forall sy :: sy in Levels(a, b) <==> sy in SectionYs(a) || sy in SectionYs(b)
  {
    SortedSorts(SectionYs(a) + SectionYs(b));
    DedupedStrict(SortedInts(SectionYs(a) + SectionYs(b)));
  }

  predicate At(e: BlockEdit, x: int, y: int, z: int) {
    e.x == x && e.y == y && e.z == z
  }

  /** Cell number within the section, of a coordinate in chunk `cx`, `cz`. */
  lemma EditPlace(cx: int, cz: int, sy: int, idx: nat, o: Option<BlockState>, n: Option<BlockState>, x: int, y: int,
                  z: int)
    requires idx < CELLS
    ensures At(EditAt(cx, cz, sy, idx, o, n), x, y, z) <==>
              x / 16 == cx && z / 16 == cz && y / 16 == sy && CellIndex(x, y, z) == idx
  {
    var lx, lz, ly := idx % 256 % 16, idx % 256 / 16, idx / 256;
    assert 0 <= lx < 16 && 0 <= lz < 16 && 0 <= ly < 16 && idx == ly * 256 + lz * 16 + lx;
    assert x == x / 16 * 16 + x % 16 && y == y / 16 * 16 + y % 16 && z == z / 16 * 16 + z % 16;
    if CellIndex(x, y, z) == idx {
      SameDigits(y % 16, z % 16, x % 16, ly, lz, lx);
    }
    if At(EditAt(cx, cz, sy, idx, o, n), x, y, z) {
      Digit(cx, lx);
      Digit(cz, lz);
      Digit(sy, ly);
    }
  }

  lemma Digit(q: int, d: int)
    requires 0 <= d < 16
    ensures (q * 16 + d) / 16 == q && (q * 16 + d) % 16 == d
  {}

  lemma SameDigits(a: int, b: int, c: int, d: int, e: int, f: int)
    requires 0 <= a < 16 && 0 <= b < 16 && 0 <= c < 16 && 0 <= d < 16 && 0 <= e < 16 && 0 <= f < 16
    requires a * 256 + b * 16 + c == d * 256 + e * 16 + f
    ensures a == d && b == e && c == f
  {}

  /** The cell at the coordinate differs between the two section contents. */
  predicate Differs(ab: Option<seq<BlockState>>, bb: Option<seq<BlockState>>, x: int, y: int, z: int) {
    CellOf(ab, CellIndex(x, y, z)) != CellOf(bb, CellIndex(x, y, z))
  }

  predicate Describes(e: BlockEdit, ab: Option<seq<BlockState>>, bb: Option<seq<BlockState>>, x: int, y: int, z: int) {
    e == BlockEdit(x, y, z, Shown(CellOf(ab, CellIndex(x, y, z))), Shown(CellOf(bb, CellIndex(x, y, z))))
  }

  /** How often a coordinate is listed. */
  function Count(edits: seq<BlockEdit>, x: int, y: int, z: int): nat {
    if edits == [] then 0
    else Count(edits[..|edits| - 1], x, y, z) + if At(edits[|edits| - 1], x, y, z) then 1 else 0
  }

  lemma {:induction false} CountAppend(a: seq<BlockEdit>, b: seq<BlockEdit>, x: int, y: int, z: int)
    ensures Count(a + b, x, y, z) == Count(a, x, y, z) + Count(b, x, y, z)
  {
    if b == [] {
      assert a + b == a;
    } else {
      CountAppend(a, b[..|b| - 1], x, y, z);
      assert (a + b)[..|a + b| - 1] == a + b[..|b| - 1];
    }
  }

  /** A section's edits list each differing cell once, with its contents. */
  lemma {:induction false} SectionEditsExact(ab: Option<seq<BlockState>>, bb: Option<seq<BlockState>>, cx: int, cz: int,
        sy: int, n: nat, x: int, y: int, z: int)
    requires n <= CELLS
    ensures Count(SectionEdits(ab, bb, cx, cz, sy, n), x, y, z) ==
            if x / 16 == cx && z / 16 == cz && y / 16 == sy && CellIndex(x, y, z) < n && Differs(ab, bb, x, y, z) then 1
                else 0
    ensures forall e :: e in SectionEdits(ab, bb, cx, cz, sy, n) && At(e, x, y, z) ==>
              Describes(e, ab, bb, x, y, z) && y / 16 == sy
  {
    hide CellIndex, Shown, Count, EditAt;
    if n == 0 {
      NoneListed(x, y, z);
    } else {
      SectionEditsExact(ab, bb, cx, cz, sy, n - 1, x, y, z);
      var idx := n - 1;
      var o, w := CellOf(ab, idx), CellOf(bb, idx);
      EditPlace(cx, cz, sy, idx, o, w, x, y, z);
      if At(EditAt(cx, cz, sy, idx, o, w), x, y, z) { EditShows(ab, bb, cx, cz, sy, idx, x, y, z); }
      var more := if o != w then [EditAt(cx, cz, sy, idx, o, w)] else [];
      CountAppend(SectionEdits(ab, bb, cx, cz, sy, n - 1), more, x, y, z);
      CountOne(EditAt(cx, cz, sy, idx, o, w), x, y, z);
    }
  }

  lemma NoneListed(x: int, y: int, z: int)
    ensures Count([], x, y, z) == 0
  {}

  lemma EditShows(ab: Option<seq<BlockState>>, bb: Option<seq<BlockState>>, cx: int, cz: int, sy: int, idx: nat, x: int,
                  y: int, z: int)
    requires idx < CELLS && At(EditAt(cx, cz, sy, idx, CellOf(ab, idx), CellOf(bb, idx)), x, y, z)
    ensures Describes(EditAt(cx, cz, sy, idx, CellOf(ab, idx), CellOf(bb, idx)), ab, bb, x, y, z)
  {
    EditPlace(cx, cz, sy, idx, CellOf(ab, idx), CellOf(bb, idx), x, y, z);
  }

  lemma CountOne(e: BlockEdit, x: int, y: int, z: int)
    ensures Count([e], x, y, z) == if At(e, x, y, z) then 1 else 0
    ensures Count([], x, y, z) == 0
  {
    assert [e][..0] == [];
  }

  lemma {:induction false} EditsCount(a: Nbt, b: Nbt, cx: int, cz: int, ys: seq<int>, x: int, y: int, z: int)
    requires Strict(ys)
    ensures Count(Edits(a, b, cx, cz, ys), x, y, z) ==
            if x / 16 == cx && z / 16 == cz && y / 16 in ys &&
                Differs(Cells(a, y / 16), Cells(b, y / 16), x, y, z) then 1 else 0
    ensures forall e :: e in Edits(a, b, cx, cz, ys) && At(e, x, y, z) ==>
              Describes(e, Cells(a, y / 16), Cells(b, y / 16), x, y, z)
  {
    hide Cells, CellIndex, SectionEdits, Shown;
    if ys != [] {
      var init, sy := ys[..|ys| - 1], ys[|ys| - 1];
      EditsCount(a, b, cx, cz, init, x, y, z);
      assert ys == init + [sy];
      assert sy !in init;
      CellBounds(x, y, z);
      SectionEditsExact(Cells(a, sy), Cells(b, sy), cx, cz, sy, CELLS, x, y, z);
      CountAppend(Edits(a, b, cx, cz, init), SectionEdits(Cells(a, sy), Cells(b, sy), cx, cz, sy, CELLS), x, y, z);
    }
  }

  /** Every section the chunk lists decodes. */
  ghost predicate Decodes(chunk: Nbt) {
    forall sy :: sy in SectionYs(chunk) ==> Cells(chunk, sy).Some?
  }

  /** For chunks whose sections decode, the diff lists a coordinate exactly once if
      the blocks asked for there differ, never otherwise, and what it lists shows
      those blocks. */
  lemma BlockEditsExact(a: Nbt, b: Nbt, cx: int, cz: int, x: int, y: int, z: int)
    requires Decodes(a) && Decodes(b)
    ensures Count(Edits(a, b, cx, cz, Levels(a, b)), x, y, z) ==
            if x / 16 == cx && z / 16 == cz && BlockAt(a, x, y, z) != BlockAt(b, x, y, z) then 1 else 0
    ensures forall e :: e in Edits(a, b, cx, cz, Levels(a, b)) && At(e, x, y, z) ==>
              e.was == Shown(BlockAt(a, x, y, z)) && e.now == Shown(BlockAt(b, x, y, z))
  {
    hide Levels, Edits, CellIndex, Count, Shown, SectionYs, Cells, BlockAt;
    LevelsExact(a, b);
    EditsCount(a, b, cx, cz, Levels(a, b), x, y, z);
    AskedIsDecoded(a, x, y, z);
    AskedIsDecoded(b, x, y, z);
  }

  lemma AskedIsDecoded(chunk: Nbt, x: int, y: int, z: int)
    requires Decodes(chunk)
    ensures CellOf(Cells(chunk, y / 16), CellIndex(x, y, z)) == BlockAt(chunk, x, y, z)
    ensures y / 16 !in SectionYs(chunk) ==> BlockAt(chunk, x, y, z) == None
  {
    hide SectionYs, CellIndex, CellState, SectionAt, Palette;
    PresentSections(chunk, y / 16);
    CellBounds(x, y, z);
    if y / 16 in SectionYs(chunk) {
      BlockInSection(chunk, x, y, z);
    }
  }

  // ---- the order of the edits ----

  /** By height, then by z, then by x. */
  predicate Earlier(e: BlockEdit, f: BlockEdit) {
    e.y < f.y || (e.y == f.y && (e.z < f.z || (e.z == f.z && e.x < f.x)))
  }

  ghost predicate InOrder(edits: seq<BlockEdit>) {
    forall i, j :: 0 <= i < j < |edits| ==> Earlier(edits[i], edits[j])
  }

  /** All edits lie between two heights. */
  ghost predicate Within(edits: seq<BlockEdit>, low: int, high: int) {
    forall i :: 0 <= i < |edits| ==> low <= edits[i].y < high
  }

  lemma LowerFirst(a: seq<BlockEdit>, b: seq<BlockEdit>, y: int, low: int, high: int)
    requires InOrder(a) && InOrder(b) && Within(a, low, y) && Within(b, y, high) && low <= y <= high
    ensures InOrder(a + b) && Within(a + b, low, high)
  {}

  /** The edit is one of the first `n` cells of the section. */
  predicate OfCell(e: BlockEdit, cx: int, cz: int, sy: int, k: nat, n: nat) {
    k < n && e.x == cx * 16 + k % 16 && e.z == cz * 16 + k / 16 % 16 && e.y == sy * 16 + k / 256
  }

  lemma CellPlace(cx: int, cz: int, sy: int, idx: nat, o: Option<BlockState>, n: Option<BlockState>)
    ensures OfCell(EditAt(cx, cz, sy, idx, o, n), cx, cz, sy, idx, idx + 1)
  {
    assert idx % 256 % 16 == idx % 16 && idx % 256 / 16 == idx / 16 % 16;
  }

  lemma CellDigits(k: nat)
    ensures k == k / 256 * 256 + k / 16 % 16 * 16 + k % 16
    ensures 0 <= k / 16 % 16 < 16 && 0 <= k % 16 < 16
  {}

  lemma LowerDigits(a: int, b: int, c: int, d: int, e: int, f: int)
    requires 0 <= b < 16 && 0 <= c < 16 && 0 <= e < 16 && 0 <= f < 16
    requires a * 256 + b * 16 + c < d * 256 + e * 16 + f
    ensures a < d || (a == d && (b < e || (b == e && c < f)))
  {}

  lemma EarlierCell(e: BlockEdit, f: BlockEdit, cx: int, cz: int, sy: int, k: nat, l: nat)
    requires OfCell(e, cx, cz, sy, k, l) && OfCell(f, cx, cz, sy, l, l + 1)
    ensures Earlier(e, f)
  {
    CellDigits(k);
    CellDigits(l);
    LowerDigits(k / 256, k / 16 % 16, k % 16, l / 256, l / 16 % 16, l % 16);
  }

  lemma {:induction false} SectionInOrder(ab: Option<seq<BlockState>>, bb: Option<seq<BlockState>>, cx: int, cz: int,
                                          sy: int, n: nat)
    ensures InOrder(SectionEdits(ab, bb, cx, cz, sy, n))
    ensures forall e :: e in SectionEdits(ab, bb, cx, cz, sy, n) ==> exists k: nat :: OfCell(e, cx, cz, sy, k, n)
  {
    hide EditAt, OfCell, Earlier;
    if n > 0 {
      var idx := n - 1;
      SectionInOrder(ab, bb, cx, cz, sy, idx);
      var before := SectionEdits(ab, bb, cx, cz, sy, idx);
      var last := EditAt(cx, cz, sy, idx, CellOf(ab, idx), CellOf(bb, idx));
      CellPlace(cx, cz, sy, idx, CellOf(ab, idx), CellOf(bb, idx));
      forall e | e in before ensures Earlier(e, last) && exists k: nat :: OfCell(e, cx, cz, sy, k, n) {
        var k: nat :| OfCell(e, cx, cz, sy, k, idx);
        EarlierCell(e, last, cx, cz, sy, k, idx);
        LaterBound(e, cx, cz, sy, k, idx, n);
      }
    }
  }

  lemma LaterBound(e: BlockEdit, cx: int, cz: int, sy: int, k: nat, m: nat, n: nat)
    requires OfCell(e, cx, cz, sy, k, m) && m <= n
    ensures OfCell(e, cx, cz, sy, k, n)
  {}

  /** Edits come by height, then by z, then by x, so none comes twice. */
  lemma {:induction false} EditsInOrder(a: Nbt, b: Nbt, cx: int, cz: int, ys: seq<int>, low: int)
    requires Strict(ys) && forall i :: 0 <= i < |ys| ==> low <= ys[i]
    ensures InOrder(Edits(a, b, cx, cz, ys))
    ensures Within(Edits(a, b, cx, cz, ys), low * 16, if ys == [] then low * 16 else ys[|ys| - 1] * 16 + 16)
  {
    hide Cells, SectionEdits, InOrder, Earlier, OfCell;
    if ys == [] {
      NoneInOrder(low * 16);
    } else {
      var init, sy := ys[..|ys| - 1], ys[|ys| - 1];
      EditsInOrder(a, b, cx, cz, init, low);
      var first, more := Edits(a, b, cx, cz, init), SectionEdits(Cells(a, sy), Cells(b, sy), cx, cz, sy, CELLS);
      SectionInOrder(Cells(a, sy), Cells(b, sy), cx, cz, sy, CELLS);
      forall e | e in more ensures sy * 16 <= e.y < sy * 16 + 16 {
        var k: nat :| OfCell(e, cx, cz, sy, k, CELLS);
        CellHeight(e, cx, cz, sy, k);
      }
      assert Within(more, sy * 16, sy * 16 + 16);
      assert Within(first, low * 16, sy * 16);
      LowerFirst(first, more, sy * 16, low * 16, sy * 16 + 16);
    }
  }

  lemma NoneInOrder(y: int)
    ensures InOrder([]) && Within([], y, y)
  {}

  lemma CellHeight(e: BlockEdit, cx: int, cz: int, sy: int, k: nat)
    requires OfCell(e, cx, cz, sy, k, CELLS)
    ensures sy * 16 <= e.y < sy * 16 + 16
  {}

  // ---- what an edit shows ----

  /** A name without a bracket, and properties without the signs that separate them. */
  predicate PlainName(b: BlockState) {
    && '[' !in b.name
    && forall i :: 0 <= i < |b.properties| ==> PlainPair(b.properties[i])
  }

  predicate PlainPair(p: (string, string)) {
    '=' !in p.0 && ',' !in p.1
  }

  /** Where a sign that the text before does not hold comes first. */
  lemma SignAt(a: string, sign: char, x: string)
    requires sign !in a
    ensures var s := a + [sign] + x;
            s[|a|] == sign && forall k :: 0 <= k < |a| ==> s[k] != sign
  {
    assert forall k :: 0 <= k < |a| ==> (a + [sign] + x)[k] == a[k];
  }

  lemma SameBefore(a: string, b: string, sign: char, x: string, y: string)
    requires sign !in a && sign !in b && a + [sign] + x == b + [sign] + y
    ensures a == b && x == y
  {
    var s := a + [sign] + x;
    SignAt(a, sign, x);
    SignAt(b, sign, y);
    assert |a| == |b|;
    assert a == s[..|a|] && b == s[..|b|] && x == s[|a| + 1..] && y == s[|b| + 1..];
  }

  function Rest(ps: seq<(string, string)>): string {
    if ps == [] then "" else "," + Joined(ps)
  }

  lemma CommaAfter(v: string, x: string)
    requires ',' !in v && (x == [] || x[0] == ',')
    ensures forall k :: 0 <= k < |v| ==> (v + x)[k] != ','
    ensures |v| < |v + x| ==> (v + x)[|v|] == ','
  {
    assert forall k :: 0 <= k < |v| ==> (v + x)[k] == v[k];
  }

  lemma SameValue(v: string, w: string, x: string, y: string)
    requires ',' !in v && ',' !in w && v + x == w + y
    requires (x == [] || x[0] == ',') && (y == [] || y[0] == ',')
    ensures v == w && x == y
  {
    var s := v + x;
    CommaAfter(v, x);
    CommaAfter(w, y);
    assert |v| == |w|;
    assert v == s[..|v|] && w == s[..|w|] && x == s[|v|..] && y == s[|w|..];
  }

  lemma {:induction false} JoinedApart(ps: seq<(string, string)>, qs: seq<(string, string)>)
    requires forall i :: 0 <= i < |ps| ==> PlainPair(ps[i])
    requires forall i :: 0 <= i < |qs| ==> PlainPair(qs[i])
    requires ps != [] && qs != [] && Joined(ps) == Joined(qs)
    ensures ps == qs
    decreases |ps|
  {
    hide Joined, Rest;
    var p, q, rest, more := ps[0], qs[0], ps[1..], qs[1..];
    JoinedParts(ps);
    JoinedParts(qs);
    SameBefore(p.0, q.0, '=', p.1 + Rest(rest), q.1 + Rest(more));
    RestParts(rest);
    RestParts(more);
    SameValue(p.1, q.1, Rest(rest), Rest(more));
    if rest != [] && more != [] { JoinedApart(rest, more); }
    assert ps == [p] + rest && qs == [q] + more;
  }

  lemma RestParts(ps: seq<(string, string)>)
    ensures Rest(ps) == [] <==> ps == []
    ensures ps != [] ==> Rest(ps)[0] == ',' && Rest(ps)[1..] == Joined(ps)
  {}

  lemma JoinedParts(ps: seq<(string, string)>)
    requires ps != []
    ensures Joined(ps) == ps[0].0 + ['='] + (ps[0].1 + Rest(ps[1..]))
  {
    var k, v, rest := ps[0].0, ps[0].1, Rest(ps[1..]);
    Assoc(k, ['='], v);
    Assoc(k, ['='] + v, rest);
    Assoc(['='], v, rest);
    Assoc(k, ['='], v + rest);
    assert |ps| == 1 ==> ps[1..] == [] && rest == [] && k + "=" + v + [] == k + "=" + v;
    if |ps| > 1 { Assoc(k + "=" + v, ",", Joined(ps[1..])); }
    assert Joined(ps) == k + ['='] + v + rest;
  }

  /** Blocks with plain names are shown alike only if they are the same block. */
  lemma ShownApart(a: BlockState, b: BlockState)
    requires PlainName(a) && PlainName(b) && Shown(Some(a)) == Shown(Some(b))
    ensures a == b
  {
    hide Joined;
    Bracketed(a);
    Bracketed(b);
    if a.properties != [] {
      var j, k := Joined(a.properties), Joined(b.properties);
      assert Shown(Some(a)).value == a.name + ['['] + (j + "]");
      assert Shown(Some(b)).value == b.name + ['['] + (k + "]");
      SameBefore(a.name, b.name, '[', j + "]", k + "]");
      assert j == (j + "]")[..|j|] && k == (k + "]")[..|k|];
      JoinedApart(a.properties, b.properties);
    }
  }

  lemma Bracketed(b: BlockState)
    requires PlainName(b)
    ensures '[' in Shown(Some(b)).value <==> b.properties != []
  {
    hide Joined;
    if b.properties != [] { assert Shown(Some(b)).value[|b.name|] == '['; }
  }
}
