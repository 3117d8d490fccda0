// The NBT path language (crates/nbt/src/path.rs): parsing, printing, and the
// reads and edits a path performs on a tree.
module NbtPath {
  import opened Collections
  import opened NbtValue

  /** One step of a path. */
  datatype Seg = Key(k: string) | Index(n: nat) | Ident(id: string)

  const USIZE_LIMIT: nat := 0x1_0000_0000_0000_0000

  // ---- reading text ----

  /** The position of the first character of `s` that is in `stops`, or the end. */
  function Find(s: string, stops: set<char>): (i: nat)
    ensures i <= |s|
    ensures forall j :: 0 <= j < i ==> s[j] !in stops
    ensures i < |s| ==> s[i] in stops
  {
    if s == [] || s[0] in stops then 0 else 1 + Find(s[1..], stops)
  }

  predicate IsDigit(c: char) { '0' <= c <= '9' }

  function DigitsValue(s: string): nat
    requires forall c :: c in s ==> IsDigit(c)
  {
    if s == [] then 0
    else assert IsDigit(s[|s| - 1]); 10 * DigitsValue(s[..|s| - 1]) + (s[|s| - 1] as int - '0' as int)
  }

  /** `str::parse::<usize>`: an optional plus sign, then at least one digit, in range. */
  function ParseUsize(s: string): Option<nat> {
    var digits := if s != [] && s[0] == '+' then s[1..] else s;
    if digits == [] || exists c :: c in digits && !IsDigit(c) then None
    else if DigitsValue(digits) < USIZE_LIMIT then Some(DigitsValue(digits))
    else None
  }

  function BracketSeg(inner: string): Seg {
    match ParseUsize(inner)
    case Some(n) => Index(n)
    case None => Ident(inner)
  }

  /** What the parser reads at the head of a non-empty text: the steps found (a
      dot yields none) and the number of characters consumed. */
  function Token(s: string): (r: Result<(seq<Seg>, nat)>)
    requires s != []
    ensures r.Ok? ==> 0 < r.value.1 <= |s|
  {
    if s[0] == '.' then Ok(([], 1))
    else if s[0] == '[' then
      var inner := s[1..1 + Find(s[1..], {']'})];
      if |inner| == |s| - 1 || inner == [] then Err
      else Ok(([BracketSeg(inner)], |inner| + 2))
    else
      var key := s[..Find(s, {'.', '['})];
      Ok(([Key(key)], |key|))
  }

  function Prepend(prefix: seq<Seg>, rest: Result<seq<Seg>>): Result<seq<Seg>> {
    match rest
    case Ok(segs) => Ok(prefix + segs)
    case Err => Err
  }

  /** The steps the text `s` denotes, read left to right. */
  function Segments(s: string): Result<seq<Seg>>
    decreases |s|
  {
    if s == [] then Ok([])
    else match Token(s)
      case Err => Err
      case Ok((segs, n)) => Prepend(segs, Segments(s[n..]))
  }

  /** `NbtPath::parse`: the empty path is an error too. */
  function Parse(s: string): Result<seq<Seg>> {
    match Segments(s)
    case Ok(segs) => if segs == [] then Err else Ok(segs)
    case Err => Err
  }

  /** The scanning loop of the parser, over an index into the text. */
  method ParseLoop(s: string) returns (r: Result<seq<Seg>>)
    ensures r == Parse(s)
  {
    var segs: seq<Seg> := [];
    var i := 0;
    assert s[0..] == s;
    PrependNothing(Segments(s));
    while i < |s|
      invariant 0 <= i <= |s|
      invariant Segments(s) == Prepend(segs, Segments(s[i..]))
    {
      match Token(s[i..]) {
        case Err => return Err;
        case Ok((found, n)) =>
          PrependTwice(segs, found, Segments(s[i + n..]));
          Advance(s, i, n);
          segs := segs + found;
          i := i + n;
      }
    }
    assert segs + [] == segs;
    r := if segs == [] then Err else Ok(segs);
  }

  lemma Advance(s: string, i: nat, n: nat)
    requires i + n <= |s|
    ensures s[i..][n..] == s[i + n..]
  {}

  lemma PrependNothing(r: Result<seq<Seg>>)
    ensures Prepend([], r) == r
  {
    if r.Ok? { assert [] + r.value == r.value; }
  }

  lemma PrependTwice(p: seq<Seg>, q: seq<Seg>, r: Result<seq<Seg>>)
    ensures Prepend(p, Prepend(q, r)) == Prepend(p + q, r)
  {
    if r.Ok? { assert p + (q + r.value) == p + q + r.value; }
  }

  // ---- writing text ----

  /** The text of one step in the middle of a path. */
  function Piece(seg: Seg): string {
    match seg
    case Key(k) => "." + k
    case Index(n) => "[" + Decimal(n) + "]"
    case Ident(id) => "[" + id + "]"
  }

  /** How the tree walk extends the text of a path by one step. */
  function Extend(path: string, seg: Seg): string {
    if path == [] && seg.Key? then seg.k else path + Piece(seg)
  }

  /** The text of `path` extended by `segs`, one step at a time. */
  function Print(path: string, segs: seq<Seg>): string
    decreases |segs|
  {
    if segs == [] then path else Print(Extend(path, segs[0]), segs[1..])
  }

  /** The text of a path from the root, whose own path is "". */
  function Render(segs: seq<Seg>): string {
    Print([], segs)
  }

  /** The steps a path text can carry. */
  predicate Addressable(seg: Seg) {
    match seg
    case Key(k) => k != [] && '.' !in k && '[' !in k
    case Index(n) => n < USIZE_LIMIT
    case Ident(id) => id != [] && ']' !in id && ParseUsize(id).None?
  }

  predicate AllAddressable(segs: seq<Seg>) {
    forall i :: 0 <= i < |segs| ==> Addressable(segs[i])
  }

  function Pieces(segs: seq<Seg>): string {
    if segs == [] then "" else Piece(segs[0]) + Pieces(segs[1..])
  }

  /** Printing left to right: only a leading key drops its dot. */
  function Text(segs: seq<Seg>): string {
    if segs != [] && segs[0].Key? then segs[0].k + Pieces(segs[1..]) else Pieces(segs)
  }

  lemma {:induction false} PiecesSnoc(segs: seq<Seg>, seg: Seg)
    ensures Pieces(segs + [seg]) == Pieces(segs) + Piece(seg)
  {
    if segs == [] {
      assert segs + [seg] == [seg];
    } else {
      PiecesSnoc(segs[1..], seg);
      var all := segs + [seg];
      assert all[1..] == segs[1..] + [seg] && all[0] == segs[0];
      Assoc(Piece(segs[0]), Pieces(segs[1..]), Piece(seg));
    }
  }

  lemma TextSnoc(segs: seq<Seg>, seg: Seg)
    requires segs != []
    ensures Text(segs + [seg]) == Text(segs) + Piece(seg)
  {
    var all := segs + [seg];
    assert all[0] == segs[0] && all[1..] == segs[1..] + [seg];
    if segs[0].Key? {
      PiecesSnoc(segs[1..], seg);
      Assoc(segs[0].k, Pieces(segs[1..]), Piece(seg));
    } else {
      PiecesSnoc(segs, seg);
    }
  }

  lemma TextNonEmpty(segs: seq<Seg>)
    requires segs != [] && AllAddressable(segs)
    ensures Text(segs) != []
  {
    assert Addressable(segs[0]);
  }

  lemma TextSingle(seg: Seg)
    ensures Text([seg]) == Extend("", seg)
  {
    var tail := [seg][1..];
    assert tail == [] && Pieces(tail) == [];
    assert Piece(seg) + Pieces(tail) == Piece(seg) == [] + Piece(seg);
    if seg.Key? { assert seg.k + Pieces(tail) == seg.k; }
  }

  lemma TextExtends(segs: seq<Seg>, seg: Seg)
    requires AllAddressable(segs)
    ensures Text(segs + [seg]) == Extend(Text(segs), seg)
  {
    if segs == [] {
      TextSingle(seg);
      assert segs + [seg] == [seg];
    } else {
      TextNonEmpty(segs);
      TextSnoc(segs, seg);
    }
  }

  lemma {:induction false} PrintSnoc(path: string, segs: seq<Seg>, seg: Seg)
    ensures Print(path, segs + [seg]) == Extend(Print(path, segs), seg)
    decreases |segs|
  {
    var all := segs + [seg];
    if segs == [] {
      assert all == [seg] && all[1..] == [];
    } else {
      PrintSnoc(Extend(path, segs[0]), segs[1..], seg);
      assert all[0] == segs[0] && all[1..] == segs[1..] + [seg];
    }
  }

  lemma {:induction false} RenderIsText(segs: seq<Seg>)
    requires AllAddressable(segs)
    ensures Render(segs) == Text(segs)
  {
    if segs != [] {
      var init, last := segs[..|segs| - 1], segs[|segs| - 1];
      assert segs == init + [last];
      RenderIsText(init);
      TextExtends(init, last);
      PrintSnoc([], init, last);
    }
  }

  lemma {:induction false} DecimalDigits(n: nat)
    ensures Decimal(n) != [] && (forall c :: c in Decimal(n) ==> IsDigit(c))
    ensures DigitsValue(Decimal(n)) == n
  {
    var s := Decimal(n);
    if n < 10 {
      assert s[..0] == [];
    } else {
      DecimalDigits(n / 10);
      assert s[..|s| - 1] == Decimal(n / 10);
    }
  }

  lemma DecimalParses(n: nat)
    requires n < USIZE_LIMIT
    ensures Decimal(n) != [] && ']' !in Decimal(n) && ParseUsize(Decimal(n)) == Some(n)
  {
    DecimalDigits(n);
    assert Decimal(n)[0] in Decimal(n);
  }

  lemma {:induction false} FindAppend(s: string, t: string, stops: set<char>)
    requires forall c :: c in s ==> c !in stops
    requires t == [] || t[0] in stops
    ensures Find(s + t, stops) == |s|
  {
    if s == [] {
      assert s + t == t;
    } else {
      assert (s + t)[0] == s[0] && (s + t)[1..] == s[1..] + t;
      FindAppend(s[1..], t, stops);
    }
  }

  lemma {:induction false} BracketsParse(inner: string, rest: string)
    requires inner != [] && ']' !in inner
    ensures Segments("[" + inner + "]" + rest) == Prepend([BracketSeg(inner)], Segments(rest))
  {
    var s := "[" + inner + "]" + rest;
    assert s[1..] == inner + ("]" + rest);
    FindAppend(inner, "]" + rest, {']'});
    assert s[1..1 + |inner|] == inner;
    assert s[|inner| + 2..] == rest;
  }

  lemma {:induction false} KeyParses(k: string, rest: string)
    requires Addressable(Key(k))
    requires rest == [] || rest[0] == '.' || rest[0] == '['
    ensures Segments(k + rest) == Prepend([Key(k)], Segments(rest))
  {
    FindAppend(k, rest, {'.', '['});
    var s := k + rest;
    assert s[0] == k[0] && k[0] in k;
    assert s[..|k|] == k && s[|k|..] == rest;
  }

  lemma {:induction false} DotSkips(rest: string)
    ensures Segments(['.'] + rest) == Segments(rest)
  {
    assert (['.'] + rest)[1..] == rest;
    PrependNothing(Segments(rest));
  }

  lemma {:induction false} PieceParses(seg: Seg, rest: string)
    requires Addressable(seg)
    requires rest == [] || rest[0] == '.' || rest[0] == '['
    ensures Segments(Piece(seg) + rest) == Prepend([seg], Segments(rest))
  {
    match seg {
      case Key(k) =>
        Assoc(".", k, rest);
        DotSkips(k + rest);
        KeyParses(k, rest);
      case Index(n) =>
        DecimalParses(n);
        BracketsParse(Decimal(n), rest);
      case Ident(id) =>
        BracketsParse(id, rest);
    }
  }

  lemma PiecesStart(segs: seq<Seg>)
    ensures var t := Pieces(segs); t == [] || t[0] == '.' || t[0] == '['
  {}

  lemma {:induction false} PiecesParse(segs: seq<Seg>)
    requires AllAddressable(segs)
    ensures Segments(Pieces(segs)) == Ok(segs)
  {
    if segs != [] {
      PiecesParse(segs[1..]);
      PiecesStart(segs[1..]);
      PieceParses(segs[0], Pieces(segs[1..]));
      assert segs == [segs[0]] + segs[1..];
    }
  }

  /** Parsing is the inverse of the walk's printing on every non-empty path of
      addressable steps. */
  lemma ParseRender(segs: seq<Seg>)
    requires segs != [] && AllAddressable(segs)
    ensures Parse(Render(segs)) == Ok(segs)
  {
    RenderIsText(segs);
    if segs[0].Key? {
      PiecesParse(segs[1..]);
      PiecesStart(segs[1..]);
      KeyParses(segs[0].k, Pieces(segs[1..]));
      assert segs == [segs[0]] + segs[1..];
    } else {
      PiecesParse(segs);
    }
  }

  // ---- the grammar ----

  function Pow10(k: nat): nat {
    if k == 0 then 1 else 10 * Pow10(k - 1)
  }

  lemma ValueSnoc(s: string)
    requires s != [] && forall c :: c in s ==> IsDigit(c)
    ensures IsDigit(s[|s| - 1])
    ensures DigitsValue(s) == 10 * DigitsValue(s[..|s| - 1]) + (s[|s| - 1] as int - '0' as int)
  {
    assert s[|s| - 1] in s;
  }

  /** The first digit counts the highest power. */
  lemma {:induction false} ValueHead(s: string)
    requires s != [] && forall c :: c in s ==> IsDigit(c)
    ensures IsDigit(s[0])
    ensures DigitsValue(s) == (s[0] as int - '0' as int) * Pow10(|s| - 1) + DigitsValue(s[1..])
  {
    hide DigitsValue;
    assert s[0] in s;
    ValueSnoc(s);
    var init, rest := s[..|s| - 1], s[1..];
    if init == [] {
      assert rest == [] && |s| == 1;
      NoValue();
    } else {
      ValueHead(init);
      ValueSnoc(rest);
      assert rest[..|rest| - 1] == init[1..];
      TenTimes(s[0] as int - '0' as int, |init| - 1, |init|);
    }
  }

  lemma NoValue()
    ensures DigitsValue("") == 0 && Pow10(0) == 1
  {}

  lemma TenTimes(d: int, k: nat, next: nat)
    requires next == k + 1
    ensures d * Pow10(next) == 10 * (d * Pow10(k))
  {
    var p := Pow10(k);
    assert Pow10(next) == 10 * p;
    assert d * (10 * p) == 10 * (d * p);
  }

  /** What a path text is made of: dots, bracketed parts, and keys. */
  datatype Mark = Dot | Bracket(inner: string) | Name(text: string)

  function Spelling(mark: Mark): string {
    match mark
    case Dot => "."
    case Bracket(inner) => "[" + inner + "]"
    case Name(text) => text
  }

  function Spelt(marks: seq<Mark>): string {
    if marks == [] then "" else Spelling(marks[0]) + Spelt(marks[1..])
  }

  /** A dot denotes no step, a key itself, and brackets an index when their text is
      an optional plus sign and a number in range, else an identity. */
  ghost predicate Denotes(mark: Mark, segs: seq<Seg>) {
    match mark
    case Dot => segs == []
    case Name(text) => segs == [Key(text)]
    case Bracket(inner) =>
      if exists n :: Numeral(inner, n) then exists n :: Numeral(inner, n) && segs == [Index(n)]
      else segs == [Ident(inner)]
  }

  ghost predicate Numeral(inner: string, n: nat) {
    && n < USIZE_LIMIT
    && exists digits :: digits != [] && (inner == digits || inner == "+" + digits)
                        && (forall c :: c in digits ==> IsDigit(c)) && DigitsValue(digits) == n
  }

  ghost predicate DenoteAll(marks: seq<Mark>, segs: seq<Seg>) {
    if marks == [] then segs == []
    else exists first, rest :: Denotes(marks[0], first) && DenoteAll(marks[1..], rest) && segs == first + rest
  }

  /** Brackets hold something without a closing bracket, keys are not empty, hold
      neither sign, and end at one. */
  predicate Proper(marks: seq<Mark>) {
    marks != [] ==>
      && ProperMark(marks[0])
      && (marks[0].Name? && |marks| > 1 ==> !marks[1].Name?)
      && Proper(marks[1..])
  }

  predicate ProperMark(mark: Mark) {
    match mark
    case Dot => true
    case Bracket(inner) => inner != [] && ']' !in inner
    case Name(text) => text != [] && '.' !in text && '[' !in text
  }

  lemma NumeralParses(inner: string, n: nat)
    ensures Numeral(inner, n) <==> ParseUsize(inner) == Some(n)
  {
    if Numeral(inner, n) {
      var digits :| digits != [] && (inner == digits || inner == "+" + digits)
                    && (forall c :: c in digits ==> IsDigit(c)) && DigitsValue(digits) == n;
      if inner == "+" + digits {
        assert inner[1..] == digits;
      } else {
        assert digits[0] in digits;
      }
    }
    if ParseUsize(inner) == Some(n) && inner != [] && inner[0] == '+' {
      assert inner == "+" + inner[1..];
    }
  }

  /** What the parser makes of one mark. */
  function StepsOf(mark: Mark): seq<Seg> {
    match mark
    case Dot => []
    case Bracket(inner) => [BracketSeg(inner)]
    case Name(text) => [Key(text)]
  }

  lemma StepsDenoted(mark: Mark, segs: seq<Seg>)
    ensures Denotes(mark, segs) <==> segs == StepsOf(mark)
  {
    hide ParseUsize, Numeral;
    if mark.Bracket? {
      forall n: nat ensures Numeral(mark.inner, n) <==> ParseUsize(mark.inner) == Some(n) {
        NumeralParses(mark.inner, n);
      }
    }
  }

  lemma {:induction false} MarkParses(mark: Mark, rest: seq<Mark>)
    requires ProperMark(mark) && (mark.Name? && rest != [] ==> !rest[0].Name?)
    ensures Segments(Spelling(mark) + Spelt(rest)) == Prepend(StepsOf(mark), Segments(Spelt(rest)))
  {
    var tail := Spelt(rest);
    match mark {
      case Dot =>
        DotSkips(tail);
        PrependNothing(Segments(tail));
      case Bracket(inner) => BracketsParse(inner, tail);
      case Name(text) =>
        NextSign(rest);
        KeyParses(text, tail);
    }
  }

  lemma NextSign(rest: seq<Mark>)
    requires rest != [] ==> !rest[0].Name?
    ensures var tail := Spelt(rest); tail == [] || tail[0] == '.' || tail[0] == '['
  {}

  /** Any spelling of proper marks is read as what they denote. */
  lemma {:induction false} SpellingParses(marks: seq<Mark>, segs: seq<Seg>)
    requires Proper(marks) && DenoteAll(marks, segs)
    ensures Segments(Spelt(marks)) == Ok(segs)
    decreases |marks|
  {
    hide Denotes, Segments, Spelling, StepsOf;
    if marks == [] {
      NothingParses();
    } else {
      var first, rest :| Denotes(marks[0], first) && DenoteAll(marks[1..], rest) && segs == first + rest;
      assert marks == [marks[0]] + marks[1..];
      SpellingParses(marks[1..], rest);
      MarkParses(marks[0], marks[1..]);
      StepsDenoted(marks[0], first);
    }
  }

  lemma NothingParses()
    ensures Segments("") == Ok([])
  {}

  /** The mark at the head of a text that can be read. */
  lemma HeadMark(s: string) returns (mark: Mark, n: nat)
    requires s != [] && Token(s).Ok?
    ensures Token(s).value == (StepsOf(mark), n) && 0 < n <= |s| && s[..n] == Spelling(mark)
    ensures ProperMark(mark)
    ensures mark.Name? && n < |s| ==> s[n] in {'.', '['}
    ensures mark.Name? <==> s[0] !in {'.', '['}
  {
    n := Token(s).value.1;
    if s[0] == '.' {
      mark := Dot;
    } else if s[0] == '[' {
      mark := Bracket(s[1..n - 1]);
      assert s[..n] == "[" + s[1..n - 1] + "]";
    } else {
      mark := Name(s[..n]);
    }
  }

  /** Any text that can be read is the spelling of proper marks that denote what is read. */
  lemma {:induction false} ParsesSpelling(s: string) returns (marks: seq<Mark>)
    requires Segments(s).Ok?
    ensures Proper(marks) && Spelt(marks) == s && DenoteAll(marks, Segments(s).value)
    ensures marks != [] ==> s != [] && (marks[0].Name? <==> s[0] !in {'.', '['})
    decreases |s|
  {
    hide Denotes, Spelling, StepsOf;
    if s == [] {
      marks := [];
    } else {
      var mark, n := HeadMark(s);
      var rest := ParsesSpelling(s[n..]);
      marks := [mark] + rest;
      assert marks[0] == mark && marks[1..] == rest && s == s[..n] + s[n..];
      StepsDenoted(mark, StepsOf(mark));
      assert Segments(s).value == StepsOf(mark) + Segments(s[n..]).value;
    }
  }

  /** The parser reads a text as a path exactly when the text is spelt by marks that
      denote it, and denote at least one step. */
  lemma ParseExact(s: string, segs: seq<Seg>)
    ensures Parse(s) == Ok(segs) <==>
            segs != [] && exists marks :: Proper(marks) && Spelt(marks) == s && DenoteAll(marks, segs)
  {
    hide Proper, Spelt, DenoteAll, Segments;
    if Segments(s).Ok? {
      var marks := ParsesSpelling(s);
    }
    if marks :| Proper(marks) && Spelt(marks) == s && DenoteAll(marks, segs) {
      SpellingParses(marks, segs);
    }
  }

  // ---- reading and editing trees ----

  /** The position of the first element with identity `id`, or the length. */
  function Locate(items: seq<Nbt>, id: string): (i: nat)
    ensures i <= |items|
    ensures i < |items| ==> IdentityKey(items[i]) == Some(id)
    ensures forall j :: 0 <= j < i ==> IdentityKey(items[j]) != Some(id)
  {
    hide IdentityKey;
    if items == [] || IdentityKey(items[0]) == Some(id) then 0 else 1 + Locate(items[1..], id)
  }

  function Step(cur: Nbt, seg: Seg): Option<Nbt> {
    match seg
    case Key(k) => if cur.Compound? then Lookup(cur.m, k) else None
    case Index(n) => if cur.List? && n < |cur.items| then Some(cur.items[n]) else None
    case Ident(id) =>
      if cur.List? && Locate(cur.items, id) < |cur.items| then Some(cur.items[Locate(cur.items, id)]) else None
  }

  function Get(root: Nbt, segs: seq<Seg>): Option<Nbt> {
    if segs == [] then Some(root)
    else match Step(root, segs[0])
      case Some(next) => Get(next, segs[1..])
      case None => None
  }

  lemma GetOne(root: Nbt, seg: Seg)
    ensures Get(root, [seg]) == Step(root, seg)
  {
    assert [seg][1..] == [];
  }

  /** `NbtPath::get`, a cursor moved one step at a time. */
  method GetLoop(root: Nbt, segs: seq<Seg>) returns (r: Option<Nbt>)
    ensures r == Get(root, segs)
  {
    var cur := root;
    var i := 0;
    while i < |segs|
      invariant 0 <= i <= |segs|
      invariant Get(root, segs) == Get(cur, segs[i..])
    {
      assert segs[i..][1..] == segs[i + 1..];
      match Step(cur, segs[i]) {
        case Some(next) => cur := next;
        case None => return None;
      }
      i := i + 1;
    }
    r := Some(cur);
  }

  /** `cur` with the child that `seg` selects replaced. */
  function ReplaceChild(cur: Nbt, seg: Seg, child: Nbt): Nbt
    requires Step(cur, seg).Some?
  {
    match seg
    case Key(k) => Compound(cur.m[k := child])
    case Index(n) => List(cur.items[n := child])
    case Ident(id) => List(cur.items[Locate(cur.items, id) := child])
  }

  /** `NbtPath::set`: the edited tree, or `None` when the edit does not apply. */
  function Set(root: Nbt, segs: seq<Seg>, value: Nbt): Option<Nbt>
    requires segs != []
  {
    if |segs| == 1 then
      match segs[0]
      case Key(k) => if root.Compound? then Some(Compound(root.m[k := value])) else None
      case Index(n) =>
        if root.List? && n <= |root.items| then
          Some(List(if n == |root.items| then root.items + [value] else root.items[n := value]))
        else None
      case Ident(id) =>
        if Step(root, segs[0]).Some? then Some(ReplaceChild(root, segs[0], value)) else None
    else
      match Step(root, segs[0])
      case None => None
      case Some(child) =>
        match Set(child, segs[1..], value)
        case None => None
        case Some(child') => Some(ReplaceChild(root, segs[0], child'))
  }

  /** `NbtPath::remove`: the tree without the node, or `None` when there is none. */
  function Remove(root: Nbt, segs: seq<Seg>): Option<Nbt>
    requires segs != []
  {
    match Step(root, segs[0])
    case None => None
    case Some(child) =>
      if |segs| == 1 then
        match segs[0]
        case Key(k) => Some(Compound(root.m - {k}))
        case Index(n) => Some(List(root.items[..n] + root.items[n + 1..]))
        case Ident(id) =>
          var n := Locate(root.items, id);
          Some(List(root.items[..n] + root.items[n + 1..]))
      else
        match Remove(child, segs[1..])
        case None => None
        case Some(child') => Some(ReplaceChild(root, segs[0], child'))
  }
}
