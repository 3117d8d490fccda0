// Applying a patch (crates/patch/src/apply.rs): the guarded text-addressed
// operations, the loop over one node's operations, and region entries.
module Apply {
  import opened Collections
  import opened NbtValue
  import opened NbtPath
  import opened Comparer
  import opened Edits
  import opened Identity
  import opened Refusals
  import opened Replay
  import opened Silence
  import opened Undo

  datatype Status = Added | Removed | Modified

  function Flip(s: Status): Status {
    match s
    case Added => Removed
    case Removed => Added
    case Modified => Modified
  }

  /** A slot (a chunk or file root, possibly absent) with the report so far. */
  datatype State = State(slot: Option<Nbt>, applied: nat, conflicts: seq<string>)

  function FromValue(reverse: bool, op: PatchOp): Option<Nbt> {
    if reverse then op.value else op.base
  }

  function ToValue(reverse: bool, op: PatchOp): Option<Nbt> {
    if reverse then op.base else op.value
  }

  /** The tree after an operation whose guard passed. */
  function Changed(root: Nbt, segs: seq<Seg>, to: Option<Nbt>): Nbt
    requires segs != []
  {
    match to
    case Some(v) => (match Set(root, segs, v) case Some(t) => t case None => root)
    case None => (match Remove(root, segs) case Some(t) => t case None => root)
  }

  /** `apply_op`: the state after one operation, or `Err` on a malformed path. */
  function AfterOp(st: State, op: PatchOp, reverse: bool, force: bool, ctx: string): Result<State> {
    var from, to := FromValue(reverse, op), ToValue(reverse, op);
    if op.path == [] then
      if st.slot != from && !force then Ok(st.(conflicts := st.conflicts + [ctx + ": root"]))
      else Ok(State(to, st.applied + 1, st.conflicts))
    else if st.slot.None? then
      if force then Ok(st) else Ok(st.(conflicts := st.conflicts + [ctx + ": " + op.path + " (no root)"]))
    else
      match Parse(op.path)
      case Err => Err
      case Ok(segs) =>
        ParseNonEmpty(op.path);
        if Get(st.slot.value, segs) != from && !force then
          Ok(st.(conflicts := st.conflicts + [ctx + ": " + op.path]))
        else Ok(State(Some(Changed(st.slot.value, segs, to)), st.applied + 1, st.conflicts))
  }

  lemma ParseNonEmpty(s: string)
    ensures Parse(s).Ok? ==> Parse(s).value != []
  {}

  function AfterOps(st: State, ops: seq<PatchOp>, reverse: bool, force: bool, ctx: string): Result<State>
    decreases |ops|
  {
    if ops == [] then Ok(st)
    else match AfterOp(st, ops[0], reverse, force, ctx)
      case Err => Err
      case Ok(next) => AfterOps(next, ops[1..], reverse, force, ctx)
  }

  // ---- what an operation may do, told without computing it ----

  /** The operation finds the value it starts from under its path. Under a missing
      root nothing is found. */
  ghost predicate Expected(slot: Option<Nbt>, op: PatchOp, reverse: bool) {
    var from := if reverse then op.value else op.base;
    if op.path == [] then slot == from
    else slot.Some? && exists segs :: Parse(op.path) == Ok(segs) && Get(slot.value, segs) == from
  }

  /** The operation has a place to act on: the slot itself, or something inside it. */
  predicate Rooted(slot: Option<Nbt>, op: PatchOp) {
    op.path == [] || slot.Some?
  }

  /** The slot holds what the operation leaves under its path. */
  ghost predicate Arrived(before: Option<Nbt>, op: PatchOp, reverse: bool, after: Option<Nbt>) {
    var to := if reverse then op.base else op.value;
    if op.path == [] then after == to
    else
      && before.Some? && after.Some?
      && forall segs :: Parse(op.path) == Ok(segs) && segs != [] && to.Some?
                        && Set(before.value, segs, to.value).Some? && StaysFindable(before.value, segs, to.value) ==>
           Get(after.value, segs) == to
  }

  /** What a conflict says: where, and whether there was no root at all. */
  function Complaint(slot: Option<Nbt>, op: PatchOp, ctx: string): string {
    ctx + ": " + (if op.path == [] then "root" else op.path) + if Rooted(slot, op) then "" else " (no root)"
  }

  /** Every operation that is carried out counts once, as applied or as a
      conflict. Unforced it applies exactly where it finds what it expects, and a
      conflict says where and leaves the slot alone; forced it applies
      wherever it is rooted, and nothing is a conflict. */
  ghost predicate Reported(before: State, op: PatchOp, reverse: bool, force: bool, ctx: string, after: State) {
    var applies := if force then Rooted(before.slot, op) else Expected(before.slot, op, reverse);
    && after.applied == before.applied + (if applies then 1 else 0)
    && |after.conflicts| == |before.conflicts| + (if applies || force then 0 else 1)
    && before.conflicts <= after.conflicts
    && (!applies && !force ==> after.conflicts[|before.conflicts|] == Complaint(before.slot, op, ctx))
    && (applies ==> Arrived(before.slot, op, reverse, after.slot))
    && (!applies ==> after.slot == before.slot)
  }

  /** The operation's path cannot be read, and something is there to look it up in. */
  predicate Unreadable(slot: Option<Nbt>, op: PatchOp) {
    op.path != [] && slot.Some? && Parse(op.path).Err?
  }

  lemma OpReported(st: State, op: PatchOp, reverse: bool, force: bool, ctx: string)
    ensures var r := AfterOp(st, op, reverse, force, ctx);
            && (r.Err? <==> Unreadable(st.slot, op))
            && (r.Ok? ==> Reported(st, op, reverse, force, ctx, r.value))
  {
    hide Get, Set, Remove, StaysFindable, Parse;
    var r := AfterOp(st, op, reverse, force, ctx);
    if op.path != [] && st.slot.Some? && Parse(op.path).Ok? {
      var segs, to := Parse(op.path).value, ToValue(reverse, op);
      ParseNonEmpty(op.path);
      if to.Some? && Set(st.slot.value, segs, to.value).Some? && StaysFindable(st.slot.value, segs, to.value) {
        SetThenGet(st.slot.value, segs, to.value);
      }
    }
    if r.Ok? && r.value.conflicts != st.conflicts {
      var message := r.value.conflicts[|st.conflicts|];
      assert r.value.conflicts == st.conflicts + [message];
      assert message + "" == message;
    }
  }

  /** A forced operation does what an unforced one would that expected whatever
      is there. */
  lemma ForcedIsRefitted(st: State, op: PatchOp, reverse: bool, ctx: string)
    requires Rooted(st.slot, op) && !Unreadable(st.slot, op)
    ensures var found := if op.path == [] then st.slot else Get(st.slot.value, Parse(op.path).value);
            var refitted := if reverse then op.(value := found) else op.(base := found);
            AfterOp(st, op, reverse, true, ctx) == AfterOp(st, refitted, reverse, false, ctx)
  {}

  /** The report after `n` more operations: each is counted once, as applied or as
      a conflict, and forced ones are no conflicts. */
  ghost predicate Counted(applied: nat, conflicts: seq<string>, n: nat, force: bool, applied': nat,
                          conflicts': seq<string>) {
    && conflicts <= conflicts'
    && applied <= applied'
    && (if force then conflicts' == conflicts && applied' <= applied + n
        else applied' + |conflicts'| == applied + |conflicts| + n)
  }

  /** Over a list: every operation is counted once, whatever the slot holds. */
  lemma {:induction false} OpsReported(st: State, ops: seq<PatchOp>, reverse: bool, force: bool, ctx: string)
    ensures var r := AfterOps(st, ops, reverse, force, ctx);
            r.Ok? ==>
              && Counted(st.applied, st.conflicts, |ops|, force, r.value.applied, r.value.conflicts)
              && (force && st.slot.Some? && (forall i :: 0 <= i < |ops| ==> ops[i].path != []) ==>
                    r.value.applied == st.applied + |ops|)
    decreases |ops|
  {
    hide AfterOp, Arrived, Expected;
    if ops != [] {
      OpReported(st, ops[0], reverse, force, ctx);
      var next := AfterOp(st, ops[0], reverse, force, ctx);
      if next.Ok? {
        if ops[0].path != [] { InnerKeepsRoot(st, ops[0], reverse, force, ctx); }
        OpsReported(next.value, ops[1..], reverse, force, ctx);
      }
    }
  }

  /** An operation inside a root keeps a root there. */
  lemma InnerKeepsRoot(st: State, op: PatchOp, reverse: bool, force: bool, ctx: string)
    requires op.path != []
    ensures var r := AfterOp(st, op, reverse, force, ctx); r.Ok? ==> r.value.slot.Some? == st.slot.Some?
  {
    hide Get, Set, Remove, Parse;
  }

  /** A list fails exactly when some operation that is reached has an unreadable path. */
  lemma {:induction false} OpsFail(st: State, ops: seq<PatchOp>, reverse: bool, force: bool, ctx: string)
    ensures AfterOps(st, ops, reverse, force, ctx).Err? <==>
            exists i :: 0 <= i < |ops| && FailsAt(st, ops, reverse, force, ctx, i)
    decreases |ops|
  {
    hide AfterOp;
    if ops != [] {
      OpReported(st, ops[0], reverse, force, ctx);
      assert ops[..0] == [];
      assert FailsAt(st, ops, reverse, force, ctx, 0) <==> Unreadable(st.slot, ops[0]);
      var next := AfterOp(st, ops[0], reverse, force, ctx);
      if next.Ok? {
        OpsFail(next.value, ops[1..], reverse, force, ctx);
        forall i: nat | i < |ops| - 1
          ensures FailsAt(st, ops, reverse, force, ctx, i + 1) == FailsAt(next.value, ops[1..], reverse, force, ctx, i)
        {
          assert ops[..i + 1][1..] == ops[1..][..i];
        }
        if i :| 0 <= i < |ops| && FailsAt(st, ops, reverse, force, ctx, i) {
          assert i != 0;
          assert FailsAt(next.value, ops[1..], reverse, force, ctx, i - 1);
        }
      }
    }
  }

  /** The operations before `i` go through and `i` cannot be read. */
  ghost predicate FailsAt(st: State, ops: seq<PatchOp>, reverse: bool, force: bool, ctx: string, i: nat)
    requires i < |ops|
  {
    var reached := AfterOps(st, ops[..i], reverse, force, ctx);
    reached.Ok? && Unreadable(reached.value.slot, ops[i])
  }

  /** `ApplyReport`, which every operation updates in place. */
  class Report {
    var applied: nat
    var conflicts: seq<string>

    constructor ()
      ensures applied == 0 && conflicts == []
    {
      applied, conflicts := 0, [];
    }

    /** Applies one operation to `slot`. */
    method ApplyOp(slot: Option<Nbt>, op: PatchOp, reverse: bool, force: bool,
                   ctx: string) returns (r: Result<Option<Nbt>>)
      modifies this
      ensures match AfterOp(State(slot, old(applied), old(conflicts)), op, reverse, force, ctx)
              case Err => r.Err? && applied == old(applied) && conflicts == old(conflicts)
              case Ok(st) => r == Ok(st.slot) && applied == st.applied && conflicts == st.conflicts
      ensures r.Err? <==> Unreadable(slot, op)
      ensures r.Ok? ==> Reported(State(slot, old(applied), old(conflicts)), op, reverse, force, ctx,
              State(r.value, applied, conflicts))
    {
      OpReported(State(slot, applied, conflicts), op, reverse, force, ctx);
      var from, to := FromValue(reverse, op), ToValue(reverse, op);
      if op.path == [] {
        if slot != from && !force {
          conflicts := conflicts + [ctx + ": root"];
          return Ok(slot);
        }
        applied := applied + 1;
        return Ok(to);
      }
      if slot.None? {
        if !force {
          conflicts := conflicts + [ctx + ": " + op.path + " (no root)"];
        }
        return Ok(slot);
      }
      var path := ParseLoop(op.path);
      if path.Err? { return Err; }
      ParseNonEmpty(op.path);
      var current := GetLoop(slot.value, path.value);
      if current != from && !force {
        conflicts := conflicts + [ctx + ": " + op.path];
        return Ok(slot);
      }
      applied := applied + 1;
      r := Ok(Some(Changed(slot.value, path.value, to)));
    }

    /** The loop over the operations of one slot. */
    method ApplyOps(slot: Option<Nbt>, ops: seq<PatchOp>, reverse: bool, force: bool,
                    ctx: string) returns (r: Result<Option<Nbt>>)
      modifies this
      ensures match AfterOps(State(slot, old(applied), old(conflicts)), ops, reverse, force, ctx)
              case Err => r.Err?
              case Ok(st) => r == Ok(st.slot) && applied == st.applied && conflicts == st.conflicts
      ensures r.Ok? ==> Counted(old(applied), old(conflicts), |ops|, force, applied, conflicts)
    {
      OpsReported(State(slot, applied, conflicts), ops, reverse, force, ctx);
      hide AfterOp, Reported, Unreadable;
      var cur := slot;
      ghost var start := State(slot, applied, conflicts);
      assert ops[0..] == ops;
      for i := 0 to |ops|
        invariant AfterOps(start, ops, reverse, force, ctx) ==
              AfterOps(State(cur, applied, conflicts), ops[i..], reverse, force, ctx)
      {
        assert ops[i..][1..] == ops[i + 1..];
        var next := ApplyOp(cur, ops[i], reverse, force, ctx);
        if next.Err? { return Err; }
        cur := next.value;
      }
      r := Ok(cur);
    }

    /** The region branch of `apply_entry`: each patched chunk is taken out of the
        map, edited, and put back if it still exists. */
    method ApplyChunks(chunks: map<(int, int), Nbt>, patches: seq<ChunkPatch>, reverse: bool, force: bool, file: string)
      returns (r: Result<map<(int, int), Nbt>>)
      modifies this
      ensures match AfterChunks(Region(chunks, old(applied), old(conflicts)), patches, reverse, force, file)
              case Err => r.Err?
              case Ok(st) => r == Ok(st.chunks) && applied == st.applied && conflicts == st.conflicts
      ensures r.Ok? ==> Counted(old(applied), old(conflicts), OpCount(patches), force, applied, conflicts)
      ensures r.Ok? ==> forall pos :: Unnamed(patches, pos) ==> SlotAt(r.value, pos) == SlotAt(chunks, pos)
    {
      ChunksReported(Region(chunks, applied, conflicts), patches, reverse, force, file);
      hide AfterOps, Counted, Unnamed;
      var cur := chunks;
      ghost var start := Region(chunks, applied, conflicts);
      assert patches[0..] == patches;
      for i := 0 to |patches|
        invariant AfterChunks(start, patches, reverse, force, file)
               == AfterChunks(Region(cur, applied, conflicts), patches[i..], reverse, force, file)
      {
        assert patches[i..][1..] == patches[i + 1..];
        var p := patches[i];
        var slot := SlotAt(cur, p.pos);
        var next := ApplyOps(slot, p.ops, reverse, force, ChunkContext(file, p.pos));
        if next.Err? { return Err; }
        cur := cur - {p.pos};
        if next.value.Some? {
          cur := cur[p.pos := next.value.value];
        }
      }
      r := Ok(cur);
    }
  }

  // ---- regions ----

  datatype ChunkPatch = ChunkPatch(pos: (int, int), ops: seq<PatchOp>)

  datatype Region = Region(chunks: map<(int, int), Nbt>, applied: nat, conflicts: seq<string>)

  function SlotAt(chunks: map<(int, int), Nbt>, pos: (int, int)): Option<Nbt> {
    if pos in chunks then Some(chunks[pos]) else None
  }

  function PutSlot(chunks: map<(int, int), Nbt>, pos: (int, int), slot: Option<Nbt>): map<(int, int), Nbt> {
    match slot
    case Some(v) => (chunks - {pos})[pos := v]
    case None => chunks - {pos}
  }

  function ChunkContext(file: string, pos: (int, int)): string {
    file + " chunk " + SignedDecimal(pos.0) + "," + SignedDecimal(pos.1)
  }

  function AfterChunks(st: Region, patches: seq<ChunkPatch>, reverse: bool, force: bool, file: string): Result<Region>
    decreases |patches|
  {
    if patches == [] then Ok(st)
    else
      var p := patches[0];
      match AfterOps(State(SlotAt(st.chunks, p.pos), st.applied, st.conflicts), p.ops, reverse, force,
          ChunkContext(file, p.pos))
      case Err => Err
      case Ok(s) => AfterChunks(Region(PutSlot(st.chunks, p.pos, s.slot), s.applied, s.conflicts), patches[1..],
          reverse, force, file)
  }

  /** How many operations the patches of a region hold. */
  function OpCount(patches: seq<ChunkPatch>): nat {
    if patches == [] then 0 else |patches[0].ops| + OpCount(patches[1..])
  }

  predicate Unnamed(patches: seq<ChunkPatch>, pos: (int, int)) {
    forall i :: 0 <= i < |patches| ==> patches[i].pos != pos
  }

  /** Over a region: every operation of every patch is counted once, chunks that
      no patch names are as they were. */
  lemma {:induction false} ChunksReported(st: Region, patches: seq<ChunkPatch>, reverse: bool, force: bool,
                                          file: string)
    ensures var r := AfterChunks(st, patches, reverse, force, file);
            r.Ok? ==>
              && Counted(st.applied, st.conflicts, OpCount(patches), force, r.value.applied, r.value.conflicts)
              && forall pos :: Unnamed(patches, pos) ==> SlotAt(r.value.chunks, pos) == SlotAt(st.chunks, pos)
    decreases |patches|
  {
    hide AfterOps;
    if patches != [] {
      var p := patches[0];
      var slot := State(SlotAt(st.chunks, p.pos), st.applied, st.conflicts);
      OpsReported(slot, p.ops, reverse, force, ChunkContext(file, p.pos));
      var s := AfterOps(slot, p.ops, reverse, force, ChunkContext(file, p.pos));
      if s.Ok? {
        var next := Region(PutSlot(st.chunks, p.pos, s.value.slot), s.value.applied, s.value.conflicts);
        ChunksReported(next, patches[1..], reverse, force, file);
        assert forall pos :: Unnamed(patches, pos) ==> pos != p.pos && Unnamed(patches[1..], pos);
      }
    }
  }

  /** A region file (absent, or its chunks) with the report so far. */
  datatype Filed = Filed(file: Option<map<(int, int), Nbt>>, applied: nat, conflicts: seq<string>)

  function Held(file: Option<map<(int, int), Nbt>>): map<(int, int), Nbt> {
    if file.Some? then file.value else map[]
  }

  function Effective(status: Status, reverse: bool): Status {
    if reverse then Flip(status) else status
  }

  /** The region branch of `apply_entry`: a removal in the effective direction
      deletes the file and reports nothing, anything else rewrites it from its
      edited chunks. */
  function AfterRegion(st: Filed, status: Status, patches: seq<ChunkPatch>, reverse: bool, force: bool,
                       path: string): Result<Filed> {
    if Effective(status, reverse) == Removed then Ok(st.(file := None))
    else
      match AfterChunks(Region(Held(st.file), st.applied, st.conflicts), patches, reverse, force, path)
      case Err => Err
      case Ok(r) => Ok(Filed(Some(r.chunks), r.applied, r.conflicts))
  }

  /** `apply_entry` on a region file, given what the file held before; gives what
      it holds afterwards. */
  method ApplyRegion(file: Option<map<(int, int), Nbt>>, status: Status, patches: seq<ChunkPatch>, reverse: bool,
                     force: bool, path: string, report: Report)
    returns (r: Result<Option<map<(int, int), Nbt>>>)
    modifies report
    ensures match AfterRegion(Filed(file, old(report.applied), old(report.conflicts)), status, patches, reverse, force,
          path)
            case Err => r.Err?
            case Ok(st) => r == Ok(st.file) && report.applied == st.applied && report.conflicts == st.conflicts
    ensures r.Ok? ==> if status == (if reverse then Added else Removed)
            then r.value == None && report.applied == old(report.applied) && report.conflicts == old(report.conflicts)
            else
              && r.value.Some?
              && Counted(old(report.applied), old(report.conflicts), OpCount(patches), force, report.applied,
                  report.conflicts)
              && forall pos :: Unnamed(patches, pos) ==> SlotAt(r.value.value, pos) == SlotAt(Held(file), pos)
  {
    var eff := if reverse then Flip(status) else status;
    if eff == Removed {
      return Ok(None);
    }
    var chunks := if file.Some? then file.value else map[];
    var after := report.ApplyChunks(chunks, patches, reverse, force, path);
    r := if after.Err? then Err else Ok(Some(after.value));
  }

  // ---- text addresses mean what the walk meant ----

  predicate KeyOk(k: string) {
    Addressable(Key(k))
  }

  /** Every path the walk can print for the pair can be read back: keys are
      non-empty and free of '.' and '[', identities are free of ']', and lists are
      no longer than an index can count. */
  ghost predicate Printable(a: Nbt, b: Nbt)
    decreases a
  {
    TagId(a) == TagId(b) ==>
      match a
      case Compound(ma) =>
        && (forall k :: k in ma || k in b.m ==> KeyOk(k))
        && (forall k :: k in ma && k in b.m ==> Printable(ma[k], b.m[k]))
      case List(la) =>
        if Keyable(la) && Keyable(b.items) then
          && (forall id :: HasId(la, id) || HasId(b.items, id) ==> ']' !in id)
          && (forall i :: 0 <= i < |la| && HasId(b.items, IdAt(la, i)) ==> Printable(la[i], ById(b.items, IdAt(la, i))))
        else
          && |la| <= USIZE_LIMIT && |b.items| <= USIZE_LIMIT
          && (forall i :: 0 <= i < Min(|la|, |b.items|) ==> Printable(la[i], b.items[i]))
      case _ => true
  }

  predicate Readable(ops: seq<Op>) {
    forall i :: 0 <= i < |ops| ==> AllAddressable(ops[i].segs)
  }

  lemma ReadableAppend(x: seq<Op>, y: seq<Op>)
    requires Readable(x) && Readable(y)
    ensures Readable(x + y)
  {}

  lemma {:induction false} ReadableLift(seg: Seg, ops: seq<Op>)
    requires Addressable(seg) && Readable(ops)
    ensures Readable(Lift(seg, ops))
    decreases |ops|
  {
    if ops != [] {
      ReadableLift(seg, ops[1..]);
      var op := LiftOp(seg, ops[0]);
      forall i | 0 <= i < |op.segs| ensures Addressable(op.segs[i]) {
        if i > 0 { assert op.segs[i] == ops[0].segs[i - 1]; }
      }
    }
  }

  lemma ReadableOne(seg: Seg, base: Option<Nbt>, value: Option<Nbt>)
    requires Addressable(seg)
    ensures Readable([Op([seg], base, value)])
  {}

  /** Identities start with a letter, so they are never read as an index. */
  lemma IdentityIsIdent(v: Nbt)
    requires IdentityKey(v).Some? && ']' !in IdentityKey(v).value
    ensures Addressable(Ident(IdentityKey(v).value))
  {
    KeyInitial(v);
    var id := IdentityKey(v).value;
    assert !IsDigit(id[0]) && id[0] in id;
  }

  lemma {:induction false} KeyOpsReadable(ord: Order, path: string, a: Nbt, b: Nbt, keys: seq<string>)
    requires a.Compound? && b.Compound? && forall k :: k in keys ==> k in a.m && KeyOk(k)
    requires forall k :: k in keys && k in b.m ==> Readable(Walk(ord, Extend(path, Key(k)), a.m[k], b.m[k]))
    ensures Readable(KeyOps(ord, path, a, b, keys))
    decreases |keys|
  {
    hide Walk;
    if keys != [] {
      var k := keys[0];
      if k in b.m {
        ReadableLift(Key(k), Walk(ord, Extend(path, Key(k)), a.m[k], b.m[k]));
      } else {
        ReadableOne(Key(k), Some(a.m[k]), None);
      }
      KeyOpsReadable(ord, path, a, b, keys[1..]);
      ReadableAppend(KeyStep(ord, path, a, b, k), KeyOps(ord, path, a, b, keys[1..]));
    }
  }

  lemma {:induction false} AddedKeyOpsReadable(mb: map<string, Nbt>, keys: seq<string>)
    requires forall k :: k in keys ==> k in mb && KeyOk(k)
    ensures Readable(AddedKeyOps(mb, keys))
    decreases |keys|
  {
    if keys != [] {
      ReadableOne(Key(keys[0]), None, Some(mb[keys[0]]));
      AddedKeyOpsReadable(mb, keys[1..]);
      ReadableAppend([Op([Key(keys[0])], None, Some(mb[keys[0]]))], AddedKeyOps(mb, keys[1..]));
    }
  }

  lemma {:induction false} IndexOpsReadable(ord: Order, path: string, a: Nbt, b: Nbt, i: nat)
    requires a.List? && b.List? && |a.items| <= USIZE_LIMIT
    requires forall j :: 0 <= j < Min(|a.items|, |b.items|) ==>
               Readable(Walk(ord, Extend(path, Index(j)), a.items[j], b.items[j]))
    ensures Readable(IndexOps(ord, path, a, b, i))
    decreases |a.items| - i
  {
    hide Walk;
    if i < Min(|a.items|, |b.items|) {
      ReadableLift(Index(i), Walk(ord, Extend(path, Index(i)), a.items[i], b.items[i]));
      IndexOpsReadable(ord, path, a, b, i + 1);
      ReadableAppend(IndexStep(ord, path, a, b, i), IndexOps(ord, path, a, b, i + 1));
    }
  }

  lemma {:induction false} TailOpsReadable(items: seq<Nbt>, i: nat)
    requires |items| <= USIZE_LIMIT
    ensures Readable(RemovedTailOps(items, i)) && Readable(AddedTailOps(items, i))
    decreases |items| - i
  {
    if i < |items| {
      TailOpsReadable(items, i + 1);
      ReadableOne(Index(i), Some(items[i]), None);
      ReadableOne(Index(i), None, Some(items[i]));
      ReadableAppend([Op([Index(i)], Some(items[i]), None)], RemovedTailOps(items, i + 1));
      ReadableAppend([Op([Index(i)], None, Some(items[i]))], AddedTailOps(items, i + 1));
    }
  }

  lemma {:induction false} ElementOpsReadable(ord: Order, path: string, a: Nbt, b: Nbt, i: nat)
    requires a.List? && b.List? && Keyable(a.items) && Keyable(b.items)
    requires forall id :: HasId(a.items, id) ==> ']' !in id
    requires forall j :: 0 <= j < |a.items| && HasId(b.items, IdAt(a.items, j)) ==>
               Readable(Walk(ord, Extend(path, Ident(IdAt(a.items, j))), a.items[j], ById(b.items, IdAt(a.items, j))))
    ensures Readable(ElementOps(ord, path, a, b, i))
    decreases |a.items| - i
  {
    hide Walk, IdentityKey, Keyable, Locate;
    if i < |a.items| {
      var id := IdAt(a.items, i);
      LocateUnique(a.items, i);
      assert HasId(a.items, id);
      IdentityIsIdent(a.items[i]);
      if HasId(b.items, id) {
        ReadableLift(Ident(id), Walk(ord, Extend(path, Ident(id)), a.items[i], ById(b.items, id)));
      } else {
        ReadableOne(Ident(id), Some(a.items[i]), None);
      }
      ElementOpsReadable(ord, path, a, b, i + 1);
      ReadableAppend(ElementStep(ord, path, a, b, i), ElementOps(ord, path, a, b, i + 1));
    }
  }

  lemma {:induction false} AddedElementOpsReadable(lb: seq<Nbt>, ids: seq<string>)
    requires Keyable(lb) && forall id :: id in ids ==> id in Ids(lb) && ']' !in id
    ensures Readable(AddedElementOps(lb, ids))
    decreases |ids|
  {
    hide IdentityKey, Keyable, Locate;
    if ids != [] {
      var id := ids[0];
      IdsAreLocated(lb, id);
      IdentityIsIdent(ById(lb, id));
      ReadableOne(Ident(id), None, Some(ById(lb, id)));
      AddedElementOpsReadable(lb, ids[1..]);
      ReadableAppend([Op([Ident(id)], None, Some(ById(lb, id)))], AddedElementOps(lb, ids[1..]));
    }
  }

  lemma {:induction false} WalkReadable(ord: Order, path: string, a: Nbt, b: Nbt)
    requires Printable(a, b)
    ensures Readable(Walk(ord, path, a, b))
    decreases a
  {
    hide IdentityKey, Locate;
    if TagId(a) == TagId(b) {
      match a {
        case Compound(ma) =>
          forall k | k in ma && k in b.m ensures Readable(Walk(ord, Extend(path, Key(k)), ma[k], b.m[k])) {
            WalkReadable(ord, Extend(path, Key(k)), ma[k], b.m[k]);
          }
          KeyOpsReadable(ord, path, a, b, ord(path, ma));
          AddedKeyOpsReadable(b.m, Sorted(b.m.Keys - ma.Keys));
          ReadableAppend(KeyOps(ord, path, a, b, ord(path, ma)), AddedKeyOps(b.m, Sorted(b.m.Keys - ma.Keys)));
        case List(la) =>
          ListReadable(ord, path, a, b);
        case _ =>
      }
    }
  }

  lemma {:induction false} ListReadable(ord: Order, path: string, a: Nbt, b: Nbt)
    requires a.List? && b.List? && Printable(a, b)
    ensures Readable(Walk(ord, path, a, b))
    decreases a, 0
  {
    hide IdentityKey, Keyable, Locate;
    var la, lb := a.items, b.items;
    if Keyable(la) && Keyable(lb) {
      forall j | 0 <= j < |la| && HasId(lb, IdAt(la, j))
        ensures Readable(Walk(ord, Extend(path, Ident(IdAt(la, j))), la[j], ById(lb, IdAt(la, j))))
      {
        WalkReadable(ord, Extend(path, Ident(IdAt(la, j))), la[j], ById(lb, IdAt(la, j)));
      }
      ElementOpsReadable(ord, path, a, b, 0);
      var added := Sorted(Ids(lb) - Ids(la));
      forall id | id in added ensures ']' !in id { IdsAreLocated(lb, id); }
      AddedElementOpsReadable(lb, added);
      ReadableAppend(ElementOps(ord, path, a, b, 0), AddedElementOps(lb, added));
    } else {
      var common := Min(|la|, |lb|);
      forall j | 0 <= j < common ensures Readable(Walk(ord, Extend(path, Index(j)), la[j], lb[j])) {
        WalkReadable(ord, Extend(path, Index(j)), la[j], lb[j]);
      }
      IndexOpsReadable(ord, path, a, b, 0);
      TailOpsReadable(la, common);
      TailOpsReadable(lb, common);
      ReadableAppend(RemovedTailOps(la, common), AddedTailOps(lb, common));
      ReadableAppend(IndexOps(ord, path, a, b, 0), RemovedTailOps(la, common) + AddedTailOps(lb, common));
    }
  }

  /** One text operation does what its structured form does. */
  lemma OpMeansEdit(t: Nbt, op: Op, n: nat, cs: seq<string>, reverse: bool, ctx: string)
    requires OpOk(op) && AllAddressable(op.segs)
    ensures var e := Edit(reverse, t, op);
            var r := AfterOp(State(Some(t), n, cs), PrintOp([], op), reverse, false, ctx);
            && r.Ok? && r.value.slot == Some(e.tree) && e.conflicts <= 1
            && |r.value.conflicts| == |cs| + e.conflicts
            && r.value.applied == n + 1 - e.conflicts
  {
    hide Parse, Print, Get, Set, Remove, AllAddressable;
    if op.segs != [] {
      PrintedParses(op);
    } else {
      GetHere(t);
    }
  }

  lemma GetHere(t: Nbt)
    ensures Get(t, []) == Some(t) && Print([], []) == []
  {}

  lemma PrintedParses(op: Op)
    requires AllAddressable(op.segs) && op.segs != []
    ensures PrintOp([], op).path != [] && Parse(PrintOp([], op).path) == Ok(op.segs)
  {
    RenderIsText(op.segs);
    TextNonEmpty(op.segs);
    ParseRender(op.segs);
  }

  /** Running the text operations of a walk is running its structured edits. */
  lemma {:induction false} OpsMeanRun(t: Nbt, ops: seq<Op>, n: nat, cs: seq<string>, reverse: bool, ctx: string)
    requires OpsOk(ops) && Readable(ops)
    ensures var e := Run(reverse, t, ops);
            var r := AfterOps(State(Some(t), n, cs), PrintOps([], ops), reverse, false, ctx);
            && r.Ok? && r.value.slot == Some(e.tree) && e.conflicts <= |ops|
            && |r.value.conflicts| == |cs| + e.conflicts
            && r.value.applied == n + |ops| - e.conflicts
    decreases |ops|
  {
    if ops != [] {
      OpMeansEdit(t, ops[0], n, cs, reverse, ctx);
      var e := Edit(reverse, t, ops[0]);
      var next := AfterOp(State(Some(t), n, cs), PrintOp([], ops[0]), reverse, false, ctx).value;
      OpsMeanRun(e.tree, ops[1..], next.applied, next.conflicts, reverse, ctx);
      assert PrintOps([], ops)[1..] == PrintOps([], ops[1..]);
    }
  }

  /** The patch operations extracted for a node that both worlds have. */
  function NodeOps(ord: Order, a: Nbt, b: Nbt): seq<PatchOp> {
    PrintOps([], Walk(ord, [], a, b))
  }

  /** Applying a node's patch, in either direction and from a clean report. */
  function Applied(ord: Order, a: Nbt, b: Nbt, slot: Option<Nbt>, reverse: bool, ctx: string): Result<State> {
    AfterOps(State(slot, 0, []), NodeOps(ord, a, b), reverse, false, ctx)
  }

  /** A patch applied to the tree it starts from never fails on a path. It reports
      no conflict exactly when no index-matched list loses more than one element;
      then it reaches the other tree, up to the order of elements matched by
      identity, exactly when no identity-matched list gains, since an addition to
      such a list is dropped and counted as applied. */
  lemma PatchReplay(ord: Order, a: Nbt, b: Nbt, reverse: bool, ctx: string)
    requires Printable(a, b) && StableIds(a, b)
    ensures var r := Applied(ord, a, b, Some(Source(reverse, a, b)), reverse, ctx);
            && r.Ok? && r.value.slot.Some?
            && (r.value.conflicts == [] && Walk(ord, [], r.value.slot.value, Target(reverse, a, b)) == []
                <==> Replayable(Source(reverse, a, b), Target(reverse, a, b)))
            && (r.value.conflicts == [] <==> Unrefused(Source(reverse, a, b), Target(reverse, a, b)))
            && (r.value.conflicts == [] ==>
                  (Walk(ord, [], r.value.slot.value, Target(reverse, a, b)) == [] <==>
                      NothingGained(Source(reverse, a, b), Target(reverse, a, b))))
            && r.value.applied + |r.value.conflicts| == |NodeOps(ord, a, b)|
  {
    hide Walk, Run, Silent, Replayable, Unrefused, NothingGained, Printable, StableIds;
    var ops := Walk(ord, [], a, b);
    WalkOpsOk(ord, [], a, b);
    WalkReadable(ord, [], a, b);
    OpsMeanRun(Source(reverse, a, b), ops, 0, [], reverse, ctx);
    ReplayExact(reverse, ord, [], a, b);
    RefusedExact(reverse, ord, [], a, b);
    ReplayableSplits(Source(reverse, a, b), Target(reverse, a, b));
    WalkSilent(ord, [], Run(reverse, Source(reverse, a, b), ops).tree, Target(reverse, a, b));
    PrintOpsLength([], ops);
  }

  lemma {:induction false} PrintOpsLength(path: string, ops: seq<Op>)
    ensures |PrintOps(path, ops)| == |ops|
    decreases |ops|
  {
    if ops != [] { PrintOpsLength(path, ops[1..]); }
  }

  /** A patch applied and then applied in reverse gives the very tree it started
      from, with no conflict either way, exactly when both directions are within
      what a replay can carry out. */
  lemma PatchUndo(ord: Order, a: Nbt, b: Nbt, ctx: string)
    requires Printable(a, b) && StableIds(a, b)
    ensures var there := Applied(ord, a, b, Some(a), false, ctx);
            && there.Ok? &&
            var back := Applied(ord, a, b, there.value.slot, true, ctx);
            && back.Ok?
            && (there.value.conflicts == [] && back.value.conflicts == [] && back.value.slot == Some(a) <==>
                TwoSided(a, b))
  {
    var ops := Walk(ord, [], a, b);
    WalkOpsOk(ord, [], a, b);
    WalkReadable(ord, [], a, b);
    OpsMeanRun(a, ops, 0, [], false, ctx);
    OpsMeanRun(Run(false, a, ops).tree, ops, 0, [], true, ctx);
    UndoExact(ord, [], a, b);
  }
}
