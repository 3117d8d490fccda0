// The NBT data model (crates/nbt/src/value.rs) and the identity of list
// elements (crates/nbt/src/identity.rs).
module NbtValue {
  import opened Collections

  /** A floating-point payload. Nothing here computes with it; values are finite
      or infinite but never NaN, so equality is reflexive. */
  type Float(==, !new)

  /** An NBT tag value. A compound is its key-to-value map: the equality of the
      original's ordered map ignores the order of its keys. The order in which
      the tree walk visits keys is a separate argument of the walk. */
  datatype Nbt =
    | Byte(b: int)
    | Short(s: int)
    | Int(i: int)
    | Long(l: int)
    | Float(f: Float)
    | Double(d: Float)
    | ByteArray(bytes: seq<int>)
    | String(text: string)
    | List(items: seq<Nbt>)
    | Compound(m: map<string, Nbt>)
    | IntArray(ints: seq<int>)
    | LongArray(longs: seq<int>)

  /** The NBT tag-type byte. */
  function TagId(v: Nbt): int {
    match v
    case Byte(_) => 1
    case Short(_) => 2
    case Int(_) => 3
    case Long(_) => 4
    case Float(_) => 5
    case Double(_) => 6
    case ByteArray(_) => 7
    case String(_) => 8
    case List(_) => 9
    case Compound(_) => 10
    case IntArray(_) => 11
    case LongArray(_) => 12
  }

  function Lookup(m: map<string, Nbt>, k: string): Option<Nbt> {
    if k in m then Some(m[k]) else None
  }

  function DigitChar(d: int): char
    requires 0 <= d < 10
  {
    ('0' as int + d) as char
  }

  /** Decimal text of a natural number, as `format!("{}")` prints it. */
  function Decimal(n: nat): string {
    if n < 10 then [DigitChar(n)] else Decimal(n / 10) + [DigitChar(n % 10)]
  }

  function SignedDecimal(n: int): string {
    if n < 0 then "-" + Decimal(-n) else Decimal(n)
  }

  /** Which rule of the cascade gives an element its identity. */
  datatype IdentityRule = Uuid | LegacyUuid | BlockPos | SlotNumber | StringId | NoIdentity

  function RuleOf(v: Nbt): IdentityRule {
    if !v.Compound? then NoIdentity
    else if "UUID" in v.m && v.m["UUID"].IntArray? && |v.m["UUID"].ints| == 4 then Uuid
    else if "UUIDMost" in v.m && v.m["UUIDMost"].Long? && "UUIDLeast" in v.m && v.m["UUIDLeast"].Long? then LegacyUuid
    else if "x" in v.m && v.m["x"].Int? && "y" in v.m && v.m["y"].Int? && "z" in v.m && v.m["z"].Int? then BlockPos
    else if "Slot" in v.m && v.m["Slot"].Byte? then SlotNumber
    else if "id" in v.m && v.m["id"].String? then StringId
    else NoIdentity
  }

  /** The stable identity key of a list element, or `None`. */
  function IdentityKey(v: Nbt): Option<string> {
    match RuleOf(v)
    case Uuid =>
      var a := v.m["UUID"].ints;
      Some("uuid:" + SignedDecimal(a[0]) + "," + SignedDecimal(a[1]) + "," + SignedDecimal(a[2]) + "," +
          SignedDecimal(a[3]))
    case LegacyUuid =>
      Some("uuid:" + SignedDecimal(v.m["UUIDMost"].l) + ":" + SignedDecimal(v.m["UUIDLeast"].l))
    case BlockPos =>
      Some("block:" + SignedDecimal(v.m["x"].i) + "," + SignedDecimal(v.m["y"].i) + "," + SignedDecimal(v.m["z"].i))
    case SlotNumber => Some("slot:" + SignedDecimal(v.m["Slot"].b))
    case StringId => Some("id:" + v.m["id"].text)
    case NoIdentity => None
  }

  /** The fields the cascade reads before rule `r` is tried. */
  function FieldsAbove(r: IdentityRule): set<string> {
    match r
    case Uuid => {}
    case LegacyUuid => {"UUID"}
    case BlockPos => {"UUID", "UUIDMost", "UUIDLeast"}
    case SlotNumber => {"UUID", "UUIDMost", "UUIDLeast", "x", "y", "z"}
    case StringId => {"UUID", "UUIDMost", "UUIDLeast", "x", "y", "z", "Slot"}
    case NoIdentity => {"UUID", "UUIDMost", "UUIDLeast", "x", "y", "z", "Slot", "id"}
  }

  /** The fields rule `r` itself reads. */
  function FieldsOf(r: IdentityRule): set<string> {
    match r
    case Uuid => {"UUID"}
    case LegacyUuid => {"UUIDMost", "UUIDLeast"}
    case BlockPos => {"x", "y", "z"}
    case SlotNumber => {"Slot"}
    case StringId => {"id"}
    case NoIdentity => {}
  }

  predicate AgreeOn(a: map<string, Nbt>, b: map<string, Nbt>, fields: set<string>) {
    forall f :: f in fields ==> Lookup(a, f) == Lookup(b, f)
  }

  /** An element keeps its identity as long as the fields its rule reads, and
      those of every rule above it, keep their values. */
  lemma IdentityStable(a: Nbt, b: Nbt)
    requires a.Compound? && b.Compound?
    requires AgreeOn(a.m, b.m, FieldsAbove(RuleOf(a)) + FieldsOf(RuleOf(a)))
    ensures RuleOf(b) == RuleOf(a) && IdentityKey(b) == IdentityKey(a)
  {
    var fields := FieldsAbove(RuleOf(a)) + FieldsOf(RuleOf(a));
    forall f | f in fields ensures Lookup(a.m, f) == Lookup(b.m, f) {}
    assert "UUID" in fields;
    if RuleOf(a) != Uuid {
      assert "UUIDMost" in fields && "UUIDLeast" in fields;
      if RuleOf(a) != LegacyUuid {
        assert "x" in fields && "y" in fields && "z" in fields;
        if RuleOf(a) != BlockPos {
          assert "Slot" in fields;
          if RuleOf(a) != SlotNumber {
            assert "id" in fields;
          }
        }
      }
    }
  }
}
