// Wire packs (crates/repo/src/wirepack.rs): many objects in one body.
module Wire {
  import opened Collections
  import opened Bytes

  type Data = seq<byte>
  type Index = map<string, (nat, nat)>

  const MAX_OBJECT_SIZE := 512 * 1024 * 1024
  const MAX_PACK_TOTAL := 512 * 1024 * 1024

  /** Compression, the index's JSON text and the content hash. */
  datatype Codec = Codec(
    zip: Data -> Data,
    unzip: Data -> Option<Data>,
    text: Index -> Data,
    parse: Data -> Option<Index>,
    hash: Data -> string)

  ghost predicate Faithful(c: Codec) {
    (forall d :: c.unzip(c.zip(d)) == Some(d)) && (forall i :: c.parse(c.text(i)) == Some(i))
  }

  type Object = (string, Data)

  // ---- building ----

  /** The pack and its index: each id once, with its first content. */
  function Packed(c: Codec, objects: seq<Object>): (Data, Index) {
    if objects == [] then ([], map[])
    else
      var (pack, idx) := Packed(c, objects[..|objects| - 1]);
      var (id, content) := objects[|objects| - 1];
      if id in idx then (pack, idx) else (pack + c.zip(content), idx[id := (|pack|, |c.zip(content)|)])
  }

  /** The framed body: index length, index, pack. */
  function Framed(c: Codec, pack: Data, idx: Index): Data {
    Be(|c.text(idx)|, 4) + c.text(idx) + pack
  }

  /** A body byte by byte: the length of the index in four bytes, highest first,
      then the index and the pack. */
  ghost predicate Laid(c: Codec, body: Data, pack: Data, idx: Index) {
    var n := |c.text(idx)|;
    && |body| == 4 + n + |pack|
    && body[0] as int == n / 0x100_0000 % 256
    && body[1] as int == n / 65536 % 256
    && body[2] as int == n / 256 % 256
    && body[3] as int == n % 256
    && body[4..4 + n] == c.text(idx)
    && body[4 + n..] == pack
  }

  lemma FramedIsLaid(c: Codec, pack: Data, idx: Index)
    ensures Laid(c, Framed(c, pack, idx), pack, idx)
  {
    hide Be;
    var n := |c.text(idx)|;
    var body := Framed(c, pack, idx);
    Be4(n);
    assert body[..4] == Be(n, 4);
    assert body[4..4 + n] == c.text(idx);
    assert body[4 + n..] == pack;
  }

  method Build(c: Codec, objects: seq<Object>) returns (body: Data)
    ensures body == Framed(c, Packed(c, objects).0, Packed(c, objects).1)
    ensures Laid(c, body, Packed(c, objects).0, Packed(c, objects).1)
  {
    FramedIsLaid(c, Packed(c, objects).0, Packed(c, objects).1);
    hide Laid;
    var pack: Data := [];
    var idx: Index := map[];
    for i := 0 to |objects|
      invariant (pack, idx) == Packed(c, objects[..i])
    {
      assert objects[..i + 1][..i] == objects[..i];
      var (id, content) := objects[i];
      if id !in idx {
        var packed := c.zip(content);
        idx := idx[id := (|pack|, |packed|)];
        pack := pack + packed;
      }
    }
    assert objects[..|objects|] == objects;
    var text := c.text(idx);
    body := [];
    body := body + Be(|text|, 4);
    body := body + text;
    body := body + pack;
    assert body == Framed(c, pack, idx);
  }

  // ---- reading ----

  /** The checked content of one index entry. */
  function Opened(c: Codec, pack: Data, id: string, range: (nat, nat)): Option<Data> {
    var (off, len) := range;
    if off + len > |pack| then None
    else
      match c.unzip(pack[off..off + len])
      case None => None
      case Some(d) => if |d| <= MAX_OBJECT_SIZE then Some(d) else None
  }

  /** The length prefix, index and pack of a body. */
  function Unframed(c: Codec, body: Data): Option<(Data, Index)> {
    if |body| < 4 then None
    else
      var n := FromBe(body[..4]);
      if 4 + n > |body| then None
      else
        match c.parse(body[4..4 + n])
        case None => None
        case Some(idx) => Some((body[4 + n..], idx))
  }

  /** The number in the first four bytes, highest first, is the length of the index,
      which follows; the rest is the pack. */
  ghost predicate FrameOf(c: Codec, body: Data, pack: Data, idx: Index) {
    && |body| >= 4
    && var n := body[0] as int * 0x100_0000 + body[1] as int * 65536 + body[2] as int * 256 + body[3] as int;
       4 + n <= |body| && c.parse(body[4..4 + n]) == Some(idx) && pack == body[4 + n..]
  }

  lemma UnframedIsFrame(c: Codec, body: Data, pack: Data, idx: Index)
    ensures Unframed(c, body) == Some((pack, idx)) <==> FrameOf(c, body, pack, idx)
  {
    hide FromBe;
    if |body| >= 4 {
      FromBe4(body[0], body[1], body[2], body[3]);
      assert body[..4] == [body[0], body[1], body[2], body[3]];
    }
  }

  /** The range lies in the pack and unpacks to an object of bearable size whose hash is its id. */
  ghost predicate Yielded(c: Codec, pack: Data, idx: Index, id: string, entry: Object) {
    && entry.0 == id && c.hash(entry.1) == id && |entry.1| <= MAX_OBJECT_SIZE
    && id in idx && idx[id].0 + idx[id].1 <= |pack|
    && c.unzip(pack[idx[id].0..idx[id].0 + idx[id].1]) == Some(entry.1)
  }

  /** So for each of `ids` in turn, and together the objects stay in bounds. */
  ghost predicate Yields(c: Codec, pack: Data, idx: Index, ids: seq<string>, out: seq<Object>) {
    && |out| == |ids|
    && (forall i :: 0 <= i < |ids| ==> Yielded(c, pack, idx, ids[i], out[i]))
    && Sizes(out) <= MAX_PACK_TOTAL
  }

  lemma OpenedYields(c: Codec, pack: Data, idx: Index, id: string, d: Data)
    requires id in idx
    ensures Opened(c, pack, id, idx[id]) == Some(d) && c.hash(d) == id <==> Yielded(c, pack, idx, id, (id, d))
  {}

  lemma YieldsAdd(c: Codec, pack: Data, idx: Index, ids: seq<string>, out: seq<Object>, id: string, d: Data)
    ensures Yields(c, pack, idx, ids + [id], out + [(id, d)]) <==>
            && Yields(c, pack, idx, ids, out) && Yielded(c, pack, idx, id, (id, d))
            && Sizes(out) + |d| <= MAX_PACK_TOTAL
  {
    hide Yielded, Sizes;
    SizesAdd(out, id, d);
    var more, got := ids + [id], out + [(id, d)];
    if Yields(c, pack, idx, more, got) {
      assert Yielded(c, pack, idx, more[|ids|], got[|ids|]);
      forall i | 0 <= i < |ids| ensures Yielded(c, pack, idx, ids[i], out[i]) {
        assert Yielded(c, pack, idx, more[i], got[i]);
      }
    }
  }

  /** On any pack and index: delivery succeeds exactly when every range yields its
      object, and delivers just those. */
  lemma {:induction false} DeliveredYields(c: Codec, pack: Data, idx: Index, ids: seq<string>, out: seq<Object>)
    requires forall id :: id in ids ==> id in idx
    ensures Delivered(c, pack, idx, ids) == Some(out) <==> Yields(c, pack, idx, ids, out)
  {
    hide Opened, Yielded, Yields, Sizes;
    if ids == [] {
      DeliveredNothing(c);
      YieldsNothing(c, pack, idx, out);
    } else {
      var init, id := ids[..|ids| - 1], ids[|ids| - 1];
      assert ids == init + [id];
      if Delivered(c, pack, idx, ids).Some? {
        var done, d := Delivered(c, pack, idx, init).value, Opened(c, pack, id, idx[id]).value;
        DeliveredYields(c, pack, idx, init, done);
        OpenedYields(c, pack, idx, id, d);
        YieldsAdd(c, pack, idx, init, done, id, d);
      }
      if Yields(c, pack, idx, ids, out) {
        LastYielded(c, pack, idx, init, id, out);
        var done, d := out[..|out| - 1], out[|out| - 1].1;
        YieldsAdd(c, pack, idx, init, done, id, d);
        DeliveredYields(c, pack, idx, init, done);
        OpenedYields(c, pack, idx, id, d);
      }
    }
  }

  lemma YieldsNothing(c: Codec, pack: Data, idx: Index, out: seq<Object>)
    ensures Yields(c, pack, idx, [], out) <==> out == []
  {}

  lemma LastYielded(c: Codec, pack: Data, idx: Index, init: seq<string>, id: string, out: seq<Object>)
    requires Yields(c, pack, idx, init + [id], out)
    ensures |out| == |init| + 1 && out == out[..|init|] + [(id, out[|init|].1)]
  {
    assert Yielded(c, pack, idx, (init + [id])[|init|], out[|init|]);
  }

  function Sizes(objects: seq<Object>): nat {
    if objects == [] then 0 else Sizes(objects[..|objects| - 1]) + |objects[|objects| - 1].1|
  }

  /** The entries for `ids` in order, if each opens, hashes to its id and the total stays in bounds. */
  function Delivered(c: Codec, pack: Data, idx: Index, ids: seq<string>): Option<seq<Object>>
    requires forall id :: id in ids ==> id in idx
  {
    if ids == [] then Some([])
    else
      var id := ids[|ids| - 1];
      match (Delivered(c, pack, idx, ids[..|ids| - 1]), Opened(c, pack, id, idx[id]))
      case (Some(done), Some(d)) =>
        if Sizes(done) + |d| <= MAX_PACK_TOTAL && c.hash(d) == id then Some(done + [(id, d)]) else None
      case _ => None
  }

  /** What has been handed on in the end: the objects of all entries in id order, or
      the longest part of them that can be had; nothing from an unreadable frame. */
  ghost predicate HandedOn(c: Codec, body: Data, ok: bool, sunk: seq<Object>) {
    if forall pack, idx :: !FrameOf(c, body, pack, idx) then !ok && sunk == []
    else
      exists pack, idx :: FrameOf(c, body, pack, idx) &&
        var ids := Sorted(idx.Keys);
        && |sunk| <= |ids| && Yields(c, pack, idx, ids[..|sunk|], sunk)
        && (ok <==> |sunk| == |ids|)
        && (!ok ==> Barred(c, pack, idx, ids[..|sunk| + 1]))
  }

  ghost predicate Barred(c: Codec, pack: Data, idx: Index, ids: seq<string>) {
    forall out :: !Yields(c, pack, idx, ids, out)
  }

  lemma NoFrame(c: Codec, body: Data)
    requires Unframed(c, body).None?
    ensures HandedOn(c, body, false, [])
  {
    hide FrameOf, Yields, Sorted;
    forall pack, idx ensures !FrameOf(c, body, pack, idx) { UnframedIsFrame(c, body, pack, idx); }
  }

  lemma HandedAll(c: Codec, body: Data, pack: Data, idx: Index, ids: seq<string>, sunk: seq<Object>)
    requires Unframed(c, body) == Some((pack, idx)) && ids == Sorted(idx.Keys)
    requires Delivered(c, pack, idx, ids) == Some(sunk)
    ensures HandedOn(c, body, true, sunk)
  {
    hide FrameOf, Yields, Sorted, Distinct, Ascending, Unframed, Delivered;
    UnframedIsFrame(c, body, pack, idx);
    DeliveredYields(c, pack, idx, ids, sunk);
    YieldsEach(c, pack, idx, ids, sunk);
    assert ids[..|sunk|] == ids;
  }

  lemma YieldsEach(c: Codec, pack: Data, idx: Index, ids: seq<string>, out: seq<Object>)
    requires Yields(c, pack, idx, ids, out)
    ensures |out| == |ids|
  {}

  lemma HandedPart(c: Codec, body: Data, pack: Data, idx: Index, ids: seq<string>, n: nat, next: nat,
                   sunk: seq<Object>)
    requires Unframed(c, body) == Some((pack, idx)) && ids == Sorted(idx.Keys) && n < |ids| && next == n + 1
    requires Delivered(c, pack, idx, ids[..n]) == Some(sunk) && Delivered(c, pack, idx, ids[..next]).None?
    ensures HandedOn(c, body, false, sunk)
  {
    hide FrameOf, Yields, Sorted, Distinct, Ascending, Unframed, Delivered;
    UnframedIsFrame(c, body, pack, idx);
    DeliveredYields(c, pack, idx, ids[..n], sunk);
    YieldsEach(c, pack, idx, ids[..n], sunk);
    assert Barred(c, pack, idx, ids[..next]) by {
      forall out ensures !Yields(c, pack, idx, ids[..next], out) { DeliveredYields(c, pack, idx, ids[..next], out); }
    }
  }

  /** `for_each`, its sink collecting what it is handed: entries in id order, each
      checked before it is handed on. `sunk` is what was handed on before an error. */
  method ForEach(c: Codec, body: Data) returns (ok: bool, sunk: seq<Object>)
    ensures ok <==>
              Unframed(c, body).Some? && Delivered(c, Unframed(c, body).value.0, Unframed(c, body).value.1,
                  Sorted(Unframed(c, body).value.1.Keys)).Some?
    ensures ok ==>
              Delivered(c, Unframed(c, body).value.0, Unframed(c, body).value.1,
                  Sorted(Unframed(c, body).value.1.Keys)) == Some(sunk)
    ensures forall i :: 0 <= i < |sunk| ==> c.hash(sunk[i].1) == sunk[i].0
    ensures Sizes(sunk) <= MAX_PACK_TOTAL
    ensures HandedOn(c, body, ok, sunk)
  {
    hide Distinct, Ascending, Opened, Delivered, Sizes, Unframed, HandedOn;
    DeliveredNothing(c);
    var framing := Unframed(c, body);
    if framing.None? {
      NoFrame(c, body);
      return false, [];
    }
    var (pack, idx) := framing.value;
    var total := 0;
    sunk := [];
    var ids := Sorted(idx.Keys);
    for i := 0 to |ids|
      invariant Delivered(c, pack, idx, ids[..i]) == Some(sunk)
      invariant total == Sizes(sunk) <= MAX_PACK_TOTAL
      invariant forall i :: 0 <= i < |sunk| ==> c.hash(sunk[i].1) == sunk[i].0
    {
      var content := Opened(c, pack, ids[i], idx[ids[i]]);
      if content.None? || total + |content.value| > MAX_PACK_TOTAL || c.hash(content.value) != ids[i] {
        DeliveredStep(c, pack, idx, ids, i, sunk);
        StaysUndelivered(c, pack, idx, ids, i + 1);
        HandedPart(c, body, pack, idx, ids, i, i + 1, sunk);
        return false, sunk;
      }
      DeliveredStep(c, pack, idx, ids, i, sunk);
      SizesAdd(sunk, ids[i], content.value);
      total := total + |content.value|;
      sunk := sunk + [(ids[i], content.value)];
    }
    assert ids[..|ids|] == ids;
    HandedAll(c, body, pack, idx, ids, sunk);
    ok := true;
  }

  lemma DeliveredNothing(c: Codec)
    ensures forall pack, idx :: Delivered(c, pack, idx, []) == Some([])
    ensures Sizes([]) == 0
  {}

  lemma SizesAdd(objects: seq<Object>, id: string, d: Data)
    ensures Sizes(objects + [(id, d)]) == Sizes(objects) + |d|
  {
    assert (objects + [(id, d)])[..|objects|] == objects;
  }

  lemma DeliveredStep(c: Codec, pack: Data, idx: Index, ids: seq<string>, i: nat, sunk: seq<Object>)
    requires i < |ids| && (forall id :: id in ids ==> id in idx) && Delivered(c, pack, idx, ids[..i]) == Some(sunk)
    ensures Delivered(c, pack, idx, ids[..i + 1]) ==
            match Opened(c, pack, ids[i], idx[ids[i]])
            case Some(d) => if Sizes(sunk) + |d| <= MAX_PACK_TOTAL &&
                c.hash(d) == ids[i] then Some(sunk + [(ids[i], d)]) else None
            case None => None
  {
    hide Opened, Sizes;
    assert ids[..i + 1][..i] == ids[..i];
  }

  lemma {:induction false} StaysUndelivered(c: Codec, pack: Data, idx: Index, ids: seq<string>, n: nat)
    requires n <= |ids| && (forall id :: id in ids ==> id in idx) && Delivered(c, pack, idx, ids[..n]).None?
    ensures Delivered(c, pack, idx, ids).None?
    decreases |ids|
  {
    hide Opened;
    if n < |ids| {
      assert ids[..|ids| - 1][..n] == ids[..n];
      StaysUndelivered(c, pack, idx, ids[..|ids| - 1], n);
    } else {
      assert ids[..n] == ids;
    }
  }

  // ---- the round trip ----

  /** The content an id is packed with. */
  function FirstOf(objects: seq<Object>): map<string, Data> {
    if objects == [] then map[]
    else
      var m := FirstOf(objects[..|objects| - 1]);
      var (id, content) := objects[|objects| - 1];
      if id in m then m else m[id := content]
  }

  /** The index puts `id` where its packed content is. */
  predicate Placed(c: Codec, pack: Data, idx: Index, id: string, d: Data) {
    && id in idx && idx[id].0 + idx[id].1 <= |pack|
    && pack[idx[id].0..idx[id].0 + idx[id].1] == c.zip(d)
  }

  /** The index names each id once, and its range holds its packed content. */
  lemma {:induction false} PackedRanges(c: Codec, objects: seq<Object>)
    ensures Packed(c, objects).1.Keys == FirstOf(objects).Keys
    ensures forall id :: id in FirstOf(objects) ==>
              Placed(c, Packed(c, objects).0, Packed(c, objects).1, id, FirstOf(objects)[id])
  {
    hide Placed;
    if objects != [] {
      var init := objects[..|objects| - 1];
      PackedRanges(c, init);
      var (pack, idx) := Packed(c, init);
      var (id, content) := objects[|objects| - 1];
      if id !in idx {
        PlacedLast(c, pack, idx, id, content);
        forall x | x in FirstOf(init)
          ensures Placed(c, Packed(c, objects).0, Packed(c, objects).1, x, FirstOf(objects)[x])
        {
          PlacedStill(c, pack, idx, id, content, x, FirstOf(init)[x]);
        }
      }
    }
  }

  lemma PlacedLast(c: Codec, pack: Data, idx: Index, id: string, d: Data)
    ensures Placed(c, pack + c.zip(d), idx[id := (|pack|, |c.zip(d)|)], id, d)
  {
    assert (pack + c.zip(d))[|pack|..|pack| + |c.zip(d)|] == c.zip(d);
  }

  /** Appending to the pack leaves the ranges before it alone. */
  lemma PlacedStill(c: Codec, pack: Data, idx: Index, id: string, d: Data, x: string, e: Data)
    requires Placed(c, pack, idx, x, e) && x != id
    ensures Placed(c, pack + c.zip(d), idx[id := (|pack|, |c.zip(d)|)], x, e)
  {
    var (off, len) := idx[x];
    assert (pack + c.zip(d))[off..off + len] == pack[off..off + len];
  }

  /** Byte `k` of the pack is in the entry's range. */
  predicate Owner(idx: Index, id: string, k: nat) {
    id in idx && idx[id].0 <= k < idx[id].0 + idx[id].1
  }

  /** Every byte of the pack belongs to exactly one entry. */
  lemma {:induction false} RangesTile(c: Codec, objects: seq<Object>, k: nat)
    ensures k < |Packed(c, objects).0| <==> exists id :: Owner(Packed(c, objects).1, id, k)
    ensures forall a, b :: Owner(Packed(c, objects).1, a, k) && Owner(Packed(c, objects).1, b, k) ==> a == b
  {
    if objects != [] {
      RangesTile(c, objects[..|objects| - 1], k);
      var (pack, idx) := Packed(c, objects[..|objects| - 1]);
      var (id, content) := objects[|objects| - 1];
      if id !in idx {
        var wider := idx[id := (|pack|, |c.zip(content)|)];
        assert Packed(c, objects) == (pack + c.zip(content), wider);
        var last := |pack| <= k < |pack| + |c.zip(content)|;
        assert forall x :: x != id ==> (Owner(wider, x, k) <==> Owner(idx, x, k));
        assert Owner(wider, id, k) <==> last;
        assert !Owner(idx, id, k);
        if k < |pack| {
          var x :| Owner(idx, x, k);
          assert Owner(wider, x, k);
        }
      }
    }
  }

  /** What the framing of a body gives back. */
  lemma FramingRoundTrip(c: Codec, pack: Data, idx: Index)
    requires Faithful(c) && |c.text(idx)| < 0x1_0000_0000
    ensures Unframed(c, Framed(c, pack, idx)) == Some((pack, idx))
  {
    var text := c.text(idx);
    var body := Framed(c, pack, idx);
    Widths();
    BeRoundTrip(|text|, 4);
    assert body[..4] == Be(|text|, 4);
    assert body[4..4 + |text|] == text;
    assert body[4 + |text|..] == pack;
  }

  function Listing(m: map<string, Data>, ids: seq<string>): seq<Object>
    requires forall id :: id in ids ==> id in m
  {
    if ids == [] then [] else Listing(m, ids[..|ids| - 1]) + [(ids[|ids| - 1], m[ids[|ids| - 1]])]
  }

  ghost predicate Honest(c: Codec, m: map<string, Data>, ids: seq<string>) {
    forall id :: id in ids ==> id in m && c.hash(m[id]) == id
  }

  lemma {:induction false} DeliveredIsListing(c: Codec, pack: Data, idx: Index, m: map<string, Data>, ids: seq<string>)
    requires Faithful(c) && forall id :: id in ids ==> id in idx && id in m
    requires forall id :: id in ids ==>
               var (off, len) := idx[id]; off + len <= |pack| && pack[off..off + len] == c.zip(m[id])
    ensures Delivered(c, pack, idx, ids) ==
            if Honest(c, m, ids) && Sizes(Listing(m, ids)) <= MAX_PACK_TOTAL then Some(Listing(m, ids)) else None
  {
    hide Opened, Sizes, Faithful;
    if ids != [] {
      var init, id := ids[..|ids| - 1], ids[|ids| - 1];
      DeliveredIsListing(c, pack, idx, m, init);
      assert ids == init + [id];
      OpenedIs(c, pack, id, idx[id], m[id]);
      SizesAdd(Listing(m, init), id, m[id]);
    } else {
      DeliveredNothing(c);
    }
  }

  lemma OpenedIs(c: Codec, pack: Data, id: string, range: (nat, nat), d: Data)
    requires Faithful(c) && range.0 + range.1 <= |pack| && pack[range.0..range.0 + range.1] == c.zip(d)
    ensures Opened(c, pack, id, range) == if |d| <= MAX_OBJECT_SIZE then Some(d) else None
  {
    assert c.unzip(c.zip(d)) == Some(d);
  }

  /** What is built is read back: every distinct id once, in id order, with its
      first content, if each content has its id as hash and they fit the cap
      together; otherwise the body is refused. */
  lemma WireRoundTrip(c: Codec, objects: seq<Object>, body: Data)
    requires Faithful(c) && body == Framed(c, Packed(c, objects).0, Packed(c, objects).1)
    requires |c.text(Packed(c, objects).1)| < 0x1_0000_0000
    ensures var m, ids := FirstOf(objects), Sorted(FirstOf(objects).Keys);
            Unframed(c, body).Some? && Unframed(c, body).value.1.Keys == m.Keys
            && Delivered(c, Unframed(c, body).value.0, Unframed(c, body).value.1, ids) ==
               if Honest(c, m, ids) && Sizes(Listing(m, ids)) <= MAX_PACK_TOTAL then Some(Listing(m, ids)) else None
  {
    hide Sorted, Distinct, Ascending, Delivered, Listing, Framed, Unframed;
    var (pack, idx) := Packed(c, objects);
    FramingRoundTrip(c, pack, idx);
    PackedRanges(c, objects);
    DeliveredIsListing(c, pack, idx, FirstOf(objects), Sorted(FirstOf(objects).Keys));
  }
}
