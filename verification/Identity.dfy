// Equal identity keys come from equal identity fields: the printed forms of
// crates/nbt/src/identity.rs are injective and never collide across rules.
module Identity {
  import opened Collections
  import opened NbtValue
  import opened NbtPath

  predicate NumberChar(c: char) { c == '-' || IsDigit(c) }

  lemma SignedDecimalChars(n: int)
    ensures forall i :: 0 <= i < |SignedDecimal(n)| ==> NumberChar(SignedDecimal(n)[i])
  {
    if n < 0 {
      DecimalDigits(-n);
      var s := Decimal(-n);
      forall i | 0 <= i < |SignedDecimal(n)| ensures NumberChar(SignedDecimal(n)[i]) {
        if i > 0 { assert SignedDecimal(n)[i] == s[i - 1] && s[i - 1] in s; }
      }
    } else {
      DecimalDigits(n);
      forall i | 0 <= i < |SignedDecimal(n)| ensures NumberChar(SignedDecimal(n)[i]) {
        assert Decimal(n)[i] in Decimal(n);
      }
    }
  }

  lemma SignedDecimalInjective(n: int, m: int)
    requires SignedDecimal(n) == SignedDecimal(m)
    ensures n == m
  {
    var s, t := SignedDecimal(n), SignedDecimal(m);
    DecimalDigits(if n < 0 then -n else n);
    DecimalDigits(if m < 0 then -m else m);
    if n < 0 { assert s[1..] == Decimal(-n); } else { assert Decimal(n)[0] in Decimal(n); }
    if m < 0 { assert t[1..] == Decimal(-m); } else { assert Decimal(m)[0] in Decimal(m); }
  }

  /** Two texts that agree split at their first separator into equal parts. */
  lemma SplitAtSeparator(x: string, y: string, u: string, v: string, sep: char)
    requires x + [sep] + y == u + [sep] + v
    requires sep !in x && sep !in u
    ensures x == u && y == v
  {
    var s := x + [sep] + y;
    assert s == x + ([sep] + y) && s == u + ([sep] + v);
    FindAppend(x, [sep] + y, {sep});
    FindAppend(u, [sep] + v, {sep});
    assert s[..|x|] == x && s[..|u|] == u;
    assert s[|x| + 1..] == y && s[|u| + 1..] == v;
  }

  /** Two printed numbers followed by the same separator. */
  lemma NumberThen(n: int, y: string, m: int, v: string, sep: char)
    requires !NumberChar(sep)
    requires SignedDecimal(n) + [sep] + y == SignedDecimal(m) + [sep] + v
    ensures n == m && y == v
  {
    SignedDecimalChars(n);
    SignedDecimalChars(m);
    SplitAtSeparator(SignedDecimal(n), y, SignedDecimal(m), v, sep);
    SignedDecimalInjective(n, m);
  }

  lemma DropPrefix(p: string, x: string, y: string)
    requires p + x == p + y
    ensures x == y
  {
    assert (p + x)[|p|..] == x && (p + y)[|p|..] == y;
  }

  function Tail3(a: int, b: int, c: int): string {
    SignedDecimal(a) + [','] + (SignedDecimal(b) + [','] + SignedDecimal(c))
  }

  lemma Tail3Injective(a: int, b: int, c: int, x: int, y: int, z: int)
    requires Tail3(a, b, c) == Tail3(x, y, z)
    ensures a == x && b == y && c == z
  {
    NumberThen(a, SignedDecimal(b) + [','] + SignedDecimal(c), x, SignedDecimal(y) + [','] + SignedDecimal(z), ',');
    NumberThen(b, SignedDecimal(c), y, SignedDecimal(z), ',');
    SignedDecimalInjective(c, z);
  }

  // ---- the printed forms, bracketed to the right ----

  function UuidText(v: Nbt): string
    requires RuleOf(v) == Uuid
  {
    var a := v.m["UUID"].ints;
    SignedDecimal(a[0]) + [','] + Tail3(a[1], a[2], a[3])
  }

  function LegacyText(v: Nbt): string
    requires RuleOf(v) == LegacyUuid
  {
    SignedDecimal(v.m["UUIDMost"].l) + [':'] + SignedDecimal(v.m["UUIDLeast"].l)
  }

  function BlockText(v: Nbt): string
    requires RuleOf(v) == BlockPos
  {
    Tail3(v.m["x"].i, v.m["y"].i, v.m["z"].i)
  }

  lemma UuidForm(v: Nbt)
    requires RuleOf(v) == Uuid
    ensures IdentityKey(v) == Some("uuid:" + UuidText(v))
  {
    var a := v.m["UUID"].ints;
    var p, q, r, s := SignedDecimal(a[0]), SignedDecimal(a[1]), SignedDecimal(a[2]), SignedDecimal(a[3]);
    assert "uuid:" + p + "," + q + "," + r + "," + s == "uuid:" + (p + [','] + (q + [','] + (r + [','] + s)));
  }

  lemma LegacyForm(v: Nbt)
    requires RuleOf(v) == LegacyUuid
    ensures IdentityKey(v) == Some("uuid:" + LegacyText(v))
  {
    var p, q := SignedDecimal(v.m["UUIDMost"].l), SignedDecimal(v.m["UUIDLeast"].l);
    assert "uuid:" + p + ":" + q == "uuid:" + (p + [':'] + q);
  }

  lemma BlockForm(v: Nbt)
    requires RuleOf(v) == BlockPos
    ensures IdentityKey(v) == Some("block:" + BlockText(v))
  {
    var p, q, r := SignedDecimal(v.m["x"].i), SignedDecimal(v.m["y"].i), SignedDecimal(v.m["z"].i);
    assert "block:" + p + "," + q + "," + r == "block:" + (p + [','] + (q + [','] + r));
  }

  /** The first character names the rule, up to the two UUID forms. */
  function Initial(r: IdentityRule): char {
    match r
    case Uuid => 'u'
    case LegacyUuid => 'u'
    case BlockPos => 'b'
    case SlotNumber => 's'
    case StringId => 'i'
    case NoIdentity => ' '
  }

  lemma KeyInitial(v: Nbt)
    requires RuleOf(v) != NoIdentity
    ensures IdentityKey(v).Some? && IdentityKey(v).value != [] && IdentityKey(v).value[0] == Initial(RuleOf(v))
  {}

  lemma UuidFormsDiffer(v: Nbt, w: Nbt)
    requires RuleOf(v) == Uuid && RuleOf(w) == LegacyUuid
    ensures IdentityKey(v) != IdentityKey(w)
  {
    hide IdentityKey;
    UuidForm(v);
    LegacyForm(w);
    var t, u := UuidText(v), LegacyText(w);
    if t == u {
      var n := SignedDecimal(w.m["UUIDMost"].l);
      assert u[|n|] == ':';
      TextHasNoColon(v);
      assert false;
    }
    if "uuid:" + t == "uuid:" + u { DropPrefix("uuid:", t, u); }
  }

  predicate NoColon(s: string) { forall i :: 0 <= i < |s| ==> s[i] != ':' }

  lemma NoColonAppend(s: string, t: string)
    requires NoColon(s) && NoColon(t)
    ensures NoColon(s + t)
  {}

  lemma NumberNoColon(n: int)
    ensures NoColon(SignedDecimal(n)) && NoColon(SignedDecimal(n) + [','])
  {
    SignedDecimalChars(n);
  }

  lemma TextHasNoColon(v: Nbt)
    requires RuleOf(v) == Uuid
    ensures NoColon(UuidText(v))
  {
    var a := v.m["UUID"].ints;
    NumberNoColon(a[0]);
    NumberNoColon(a[1]);
    NumberNoColon(a[2]);
    NumberNoColon(a[3]);
    NoColonAppend(SignedDecimal(a[2]) + [','], SignedDecimal(a[3]));
    NoColonAppend(SignedDecimal(a[1]) + [','], SignedDecimal(a[2]) + [','] + SignedDecimal(a[3]));
    NoColonAppend(SignedDecimal(a[0]) + [','], Tail3(a[1], a[2], a[3]));
  }

  lemma SameRule(v: Nbt, w: Nbt)
    requires IdentityKey(v) == IdentityKey(w) && IdentityKey(v).Some?
    ensures RuleOf(v) == RuleOf(w)
  {
    KeyInitial(v);
    KeyInitial(w);
    if RuleOf(v) == Uuid && RuleOf(w) == LegacyUuid { UuidFormsDiffer(v, w); }
    if RuleOf(w) == Uuid && RuleOf(v) == LegacyUuid { UuidFormsDiffer(w, v); }
  }

  lemma SameUuid(v: Nbt, w: Nbt)
    requires RuleOf(v) == Uuid == RuleOf(w) && IdentityKey(v) == IdentityKey(w)
    ensures v.m["UUID"] == w.m["UUID"]
  {
    hide IdentityKey;
    UuidForm(v);
    UuidForm(w);
    DropPrefix("uuid:", UuidText(v), UuidText(w));
    var a, b := v.m["UUID"].ints, w.m["UUID"].ints;
    NumberThen(a[0], Tail3(a[1], a[2], a[3]), b[0], Tail3(b[1], b[2], b[3]), ',');
    Tail3Injective(a[1], a[2], a[3], b[1], b[2], b[3]);
    assert a == [a[0], a[1], a[2], a[3]] && b == [b[0], b[1], b[2], b[3]];
  }

  lemma SameLegacy(v: Nbt, w: Nbt)
    requires RuleOf(v) == LegacyUuid == RuleOf(w) && IdentityKey(v) == IdentityKey(w)
    ensures v.m["UUIDMost"] == w.m["UUIDMost"] && v.m["UUIDLeast"] == w.m["UUIDLeast"]
  {
    hide IdentityKey;
    LegacyForm(v);
    LegacyForm(w);
    DropPrefix("uuid:", LegacyText(v), LegacyText(w));
    var a, b, x, y := v.m["UUIDMost"].l, v.m["UUIDLeast"].l, w.m["UUIDMost"].l, w.m["UUIDLeast"].l;
    NumberThen(a, SignedDecimal(b), x, SignedDecimal(y), ':');
    SignedDecimalInjective(b, y);
  }

  lemma SameBlock(v: Nbt, w: Nbt)
    requires RuleOf(v) == BlockPos == RuleOf(w) && IdentityKey(v) == IdentityKey(w)
    ensures v.m["x"] == w.m["x"] && v.m["y"] == w.m["y"] && v.m["z"] == w.m["z"]
  {
    hide IdentityKey;
    BlockForm(v);
    BlockForm(w);
    DropPrefix("block:", BlockText(v), BlockText(w));
    Tail3Injective(v.m["x"].i, v.m["y"].i, v.m["z"].i, w.m["x"].i, w.m["y"].i, w.m["z"].i);
  }

  /** Elements with the same identity got it from the same rule, applied to
      fields that hold the same values. */
  lemma IdentityInjective(v: Nbt, w: Nbt)
    requires IdentityKey(v) == IdentityKey(w) && IdentityKey(v).Some?
    ensures v.Compound? && w.Compound? && RuleOf(v) == RuleOf(w)
    ensures AgreeOn(v.m, w.m, FieldsOf(RuleOf(v)))
  {
    SameRule(v, w);
    match RuleOf(v) {
      case Uuid => SameUuid(v, w);
      case LegacyUuid => SameLegacy(v, w);
      case BlockPos => SameBlock(v, w);
      case SlotNumber =>
        DropPrefix("slot:", SignedDecimal(v.m["Slot"].b), SignedDecimal(w.m["Slot"].b));
        SignedDecimalInjective(v.m["Slot"].b, w.m["Slot"].b);
      case StringId =>
        DropPrefix("id:", v.m["id"].text, w.m["id"].text);
    }
  }

  predicate HasUuid(m: map<string, Nbt>) {
    "UUID" in m && m["UUID"].IntArray? && |m["UUID"].ints| == 4
  }

  predicate HasLegacyUuid(m: map<string, Nbt>) {
    "UUIDMost" in m && m["UUIDMost"].Long? && "UUIDLeast" in m && m["UUIDLeast"].Long?
  }

  predicate HasPlace(m: map<string, Nbt>) {
    "x" in m && m["x"].Int? && "y" in m && m["y"].Int? && "z" in m && m["z"].Int?
  }

  predicate HasSlot(m: map<string, Nbt>) {
    "Slot" in m && m["Slot"].Byte?
  }

  predicate HasName(m: map<string, Nbt>) {
    "id" in m && m["id"].String?
  }

  function Listed(ns: seq<int>): string {
    if ns == [] then "" else if |ns| == 1 then SignedDecimal(ns[0]) else SignedDecimal(ns[0]) + "," + Listed(ns[1..])
  }

  /** A UUID identifies an element whatever else it has, then the older pair of
      numbers, then a block's place, then a slot, then a name; an element with none
      of them, or no compound, has no identity. */
  lemma IdentityRanks(v: Nbt)
    ensures !v.Compound? ==> IdentityKey(v) == None
    ensures v.Compound? && HasUuid(v.m) ==> IdentityKey(v) == Some("uuid:" + Listed(v.m["UUID"].ints))
    ensures v.Compound? && !HasUuid(v.m) && HasLegacyUuid(v.m) ==>
              IdentityKey(v) == Some("uuid:" + (SignedDecimal(v.m["UUIDMost"].l) + ":" +
                  SignedDecimal(v.m["UUIDLeast"].l)))
    ensures v.Compound? && !HasUuid(v.m) && !HasLegacyUuid(v.m) && HasPlace(v.m) ==>
              IdentityKey(v) == Some("block:" + Listed([v.m["x"].i, v.m["y"].i, v.m["z"].i]))
    ensures v.Compound? && !HasUuid(v.m) && !HasLegacyUuid(v.m) && !HasPlace(v.m) && HasSlot(v.m) ==>
              IdentityKey(v) == Some("slot:" + SignedDecimal(v.m["Slot"].b))
    ensures v.Compound? && !HasUuid(v.m) && !HasLegacyUuid(v.m) && !HasPlace(v.m) && !HasSlot(v.m) ==>
              IdentityKey(v) == if HasName(v.m) then Some("id:" + v.m["id"].text) else None
  {
    hide SignedDecimal;
    match RuleOf(v) {
      case Uuid =>
        UuidForm(v);
        var a := v.m["UUID"].ints;
        ListedThree(a[1], a[2], a[3]);
        assert a[1..] == [a[1], a[2], a[3]];
      case LegacyUuid => LegacyForm(v);
      case BlockPos =>
        BlockForm(v);
        ListedThree(v.m["x"].i, v.m["y"].i, v.m["z"].i);
      case _ =>
    }
  }

  lemma ListedThree(a: int, b: int, c: int)
    ensures Listed([a, b, c]) == Tail3(a, b, c)
  {
    var p, q, r := SignedDecimal(a), SignedDecimal(b), SignedDecimal(c);
    assert [a, b, c][1..] == [b, c] && [b, c][1..] == [c];
    assert Listed([b, c]) == q + "," + r;
    assert p + "," + (q + "," + r) == p + [','] + (q + [','] + r);
  }
}
