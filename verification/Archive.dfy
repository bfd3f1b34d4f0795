// The static-archive reader and writer of tools/isolate_webrtc_boringssl_symbols.py.
//
// Decimal      the size field: printing, stripping and reading back a number
// Archive      parse_members and the reassembly loop, each with its specification
// ArchiveLaws  what reassembly does to an archive laid out as a list of entries

module Decimal {
  import opened Bytes

  const SPACE: Byte := 0x20

  predicate IsDigit(b: Byte) { 0x30 <= b <= 0x39 }

  /** The ASCII characters that str.strip() removes. */
  predicate IsSpace(b: Byte) { 0x09 <= b <= 0x0D || 0x1C <= b <= 0x20 }

  predicate AllDigits(s: seq<Byte>) { forall b | b in s :: IsDigit(b) }

  predicate AllAscii(s: seq<Byte>) { forall b | b in s :: b < 0x80 }

  function Value(s: seq<Byte>): nat
    requires AllDigits(s)
  {
    if s == [] then 0 else assert s[|s| - 1] in s; 10 * Value(s[..|s| - 1]) + (s[|s| - 1] - 0x30)
  }

  /** str(n).encode("ascii") */
  function Digits(n: nat): (s: seq<Byte>)
    ensures s != [] && AllDigits(s)
  {
    if n < 10 then [0x30 + n] else Digits(n / 10) + [0x30 + n % 10]
  }

  function StripRight(s: seq<Byte>): (r: seq<Byte>)
    ensures r <= s && (r != [] ==> !IsSpace(r[|r| - 1]))
  {
    if s != [] && IsSpace(s[|s| - 1]) then StripRight(s[..|s| - 1]) else s
  }

  function StripLeft(s: seq<Byte>): seq<Byte> {
    if s != [] && IsSpace(s[0]) then StripLeft(s[1..]) else s
  }

  /** s.ljust(width) */
  function LeftJustify(s: seq<Byte>, width: nat): seq<Byte> {
    s + Fill(SPACE, if |s| < width then width - |s| else 0)
  }

  const UNDERSCORE: Byte := 0x5F

  /** Digits, with single underscores between them where the writer liked. */
  predicate Underscored(s: seq<Byte>) {
    s != [] && IsDigit(s[0]) && IsDigit(s[|s| - 1]) &&
    (forall i | 0 <= i < |s| :: IsDigit(s[i]) || s[i] == UNDERSCORE) &&
    forall i | 0 <= i < |s| - 1 :: IsDigit(s[i]) || IsDigit(s[i + 1])
  }

  function DigitsOnly(s: seq<Byte>): (r: seq<Byte>)
    ensures AllDigits(r)
  {
    if s == [] then []
    else DigitsOnly(s[..|s| - 1]) + if IsDigit(s[|s| - 1]) then [s[|s| - 1]] else []
  }

  function Unsigned(s: seq<Byte>): Option<int> {
    if Underscored(s) then Some(Value(DigitsOnly(s))) else None
  }

  /** int(field.decode("ascii").strip()) */
  function ReadInt(field: seq<Byte>): Option<int> {
    var s := StripLeft(StripRight(field));
    if !AllAscii(field) || s == [] then None
    else if s[0] == 0x2D then (match Unsigned(s[1..]) case Some(v) => Some(-v) case None => None)
    else if s[0] == 0x2B then Unsigned(s[1..])
    else Unsigned(s)
  }

  /** The same, for a size: no negative number is one. */
  function ReadNumber(field: seq<Byte>): Option<nat> {
    match ReadInt(field)
    case Some(v) => if v >= 0 then Some(v) else None
    case None => None
  }

  function Power10(k: nat): (r: nat)
    ensures r >= 1
  {
    if k == 0 then 1 else 10 * Power10(k - 1)
  }

  lemma {:induction false} ValueOfDigits(n: nat)
    ensures Value(Digits(n)) == n
  {
    if n >= 10 {
      ValueOfDigits(n / 10);
      assert Digits(n)[..|Digits(n)| - 1] == Digits(n / 10);
    }
  }

  /** A number has at most k digits exactly when it is below 10^k. */
  lemma {:induction false} DigitCount(n: nat, k: nat)
    requires k >= 1
    ensures |Digits(n)| <= k <==> n < Power10(k)
  {
    assert Power10(k) == 10 * Power10(k - 1);
    if n >= 10 && k >= 2 {
      DigitCount(n / 10, k - 1);
    }
  }

  lemma {:induction false} StripTrailing(s: seq<Byte>, n: nat)
    requires s != [] && !IsSpace(s[|s| - 1])
    ensures StripRight(s + Fill(SPACE, n)) == s
  {
    if n == 0 {
      assert s + Fill(SPACE, 0) == s;
    } else {
      assert (s + Fill(SPACE, n))[..|s| + n - 1] == s + Fill(SPACE, n - 1);
      StripTrailing(s, n - 1);
    }
  }

  lemma {:induction false} PlainDigits(s: seq<Byte>)
    requires AllDigits(s)
    ensures DigitsOnly(s) == s && (s != [] ==> Underscored(s))
  {
    if s != [] {
      assert s[|s| - 1] in s && forall i | 0 <= i < |s| :: s[i] in s;
      PlainDigits(s[..|s| - 1]);
    }
  }

  /** The size field reads back as the number written, whatever its length. */
  lemma FieldRoundTrip(n: nat, width: nat)
    ensures ReadNumber(LeftJustify(Digits(n), width)) == Some(n)
  {
    hide Value, DigitsOnly, Underscored, StripLeft, StripRight, Digits, AllDigits, AllAscii;
    var s := Digits(n);
    var field := LeftJustify(s, width);
    StrippedDigits(s, if |s| < width then width - |s| else 0);
    PlainDigits(s);
    ValueOfDigits(n);
    assert IsDigit(s[0]) by { FirstDigit(s); }
    assert Unsigned(s) == Some(Value(DigitsOnly(s)));
  }

  lemma FirstDigit(s: seq<Byte>)
    requires s != [] && AllDigits(s)
    ensures IsDigit(s[0]) && IsDigit(s[|s| - 1])
  {
  }

  lemma StrippedDigits(s: seq<Byte>, pad: nat)
    requires s != [] && AllDigits(s)
    ensures StripLeft(StripRight(s + Fill(SPACE, pad))) == s && AllAscii(s + Fill(SPACE, pad))
  {
    FirstDigit(s);
    StripTrailing(s, pad);
    assert forall b | b in s + Fill(SPACE, pad) :: IsDigit(b) || b == SPACE;
  }
}

module Archive {
  import opened Bytes
  import opened Decimal

  const MAGIC: seq<Byte> := [0x21, 0x3C, 0x61, 0x72, 0x63, 0x68, 0x3E, 0x0A]
  const HDR_LEN := 60
  const SLASH: Byte := 0x2F
  const NEWLINE: Byte := 0x0A

  /** What parse_members records of one member. */
  datatype Member = Member(name: seq<Byte>, offset: nat, size: nat, hdrOffset: nat)

  /** How the name field of a header is read. */
  datatype Name = Table | Index | Long(at: nat) | Short(name: seq<Byte>)

  /** data[a:b], clamped as Python clamps it. */
  function Slice(data: seq<Byte>, a: nat, b: nat): seq<Byte> {
    var e := Min(b, |data|);
    if a < e then data[a..e] else []
  }

  function SizeOf(hdr: seq<Byte>): Option<nat>
    requires |hdr| == HDR_LEN
  {
    ReadNumber(hdr[48..58])
  }

  function StripSlashes(s: seq<Byte>): seq<Byte> {
    if s != [] && s[|s| - 1] == SLASH then StripSlashes(s[..|s| - 1]) else s
  }

  function NameOf(hdr: seq<Byte>): Option<Name>
    requires |hdr| == HDR_LEN
  {
    var field := StripRight(hdr[..16]);
    if !AllAscii(hdr[..16]) then None
    else if field == [SLASH, SLASH] then Some(Table)
    else if field == [SLASH] then Some(Index)
    else if |field| > 1 && field[0] == SLASH && AllDigits(field[1..]) then Some(Long(Value(field[1..])))
    else Some(Short(StripSlashes(field)))
  }

  /** gnu_names.index(b"/\n", at) */
  function NameEnd(names: seq<Byte>, at: nat): (r: Option<nat>)
    ensures r.Some? ==> at <= r.value <= |names|
    decreases |names| - at
  {
    if |names| < at + 2 then None
    else if names[at..at + 2] == [SLASH, NEWLINE] then Some(at)
    else NameEnd(names, at + 1)
  }

  function LongName(names: seq<Byte>, at: nat): Option<seq<Byte>> {
    match NameEnd(names, at)
    case None => None
    case Some(end) => if AllAscii(names[at..end]) then Some(names[at..end]) else None
  }

  function Prepend<T>(xs: seq<T>, r: Result<seq<T>>): Result<seq<T>> {
    match r case Ok(ys) => Ok(xs + ys) case Err => Err
  }

  function Next(pos: nat, size: nat): nat { pos + HDR_LEN + size + size % 2 }

  /** The outcome of reading one header: the member found, if any, and where to go on. */
  datatype Scan = Scan(found: seq<Member>, next: nat, names: seq<Byte>)

  /** One turn of parse_members at pos, when names is the long-name table seen so far. */
  function ScanAt(data: seq<Byte>, pos: nat, names: seq<Byte>): (r: Result<Scan>)
    requires pos + HDR_LEN <= |data|
    ensures r.Ok? ==> r.value.next >= pos + HDR_LEN
  {
    var hdr := data[pos..pos + HDR_LEN];
    var start := pos + HDR_LEN;
    match (NameOf(hdr), SizeOf(hdr))
    case (Some(Table), Some(size)) => Ok(Scan([], Next(pos, size), Slice(data, start, start + size)))
    case (Some(Index), Some(size)) => Ok(Scan([], Next(pos, size), names))
    case (Some(Long(at)), Some(size)) =>
      (match LongName(names, at)
       case None => Err
       case Some(name) => Ok(Scan([Member(name, start, size, pos)], Next(pos, size), names)))
    case (Some(Short(name)), Some(size)) => Ok(Scan([Member(name, start, size, pos)], Next(pos, size), names))
    case _ => Err
  }

  /** The members from pos on. */
  function Parse(data: seq<Byte>, pos: nat, names: seq<Byte>): Result<seq<Member>>
    decreases |data| - pos
  {
    if |data| < pos + HDR_LEN then Ok([]) else
    match ScanAt(data, pos, names)
    case Err => Err
    case Ok(scan) => Prepend(scan.found, Parse(data, scan.next, scan.names))
  }

  function ParseMembersSpec(data: seq<Byte>): Result<seq<Member>> {
    if Slice(data, 0, 8) == MAGIC then Parse(data, 8, []) else Err
  }

  /** The loop body of parse_members. */
  method ReadEntry(data: seq<Byte>, pos: nat, gnuNames: seq<Byte>) returns (r: Result<Scan>)
    requires pos + HDR_LEN <= |data|
    ensures r == ScanAt(data, pos, gnuNames)
  {
    var hdr := data[pos..pos + HDR_LEN];
    var field, number := NameOf(hdr), SizeOf(hdr);
    if field.None? || number.None? {
      return Err;
    }
    var size := number.value;
    var dataStart := pos + HDR_LEN;
    var members, names := [], gnuNames;
    match field.value {
      case Table =>
        names := Slice(data, dataStart, dataStart + size);
      case Index =>
      case Long(at) =>
        var name := LongName(gnuNames, at);
        if name.None? {
          return Err;
        }
        members := [Member(name.value, dataStart, size, pos)];
      case Short(name) =>
        members := [Member(name, dataStart, size, pos)];
    }
    r := Ok(Scan(members, dataStart + size + size % 2, names));
  }

  /** parse_members */
  method ParseMembers(data: seq<Byte>) returns (r: Result<seq<Member>>)
    ensures r == ParseMembersSpec(data)
  {
    if Slice(data, 0, 8) != MAGIC {
      return Err;
    }
    var pos: nat := 8;
    var members := [];
    var gnuNames := [];
    PrependNothing(Parse(data, 8, []));
    while pos < |data|
      invariant ParseMembersSpec(data) == Prepend(members, Parse(data, pos, gnuNames))
      decreases |data| - pos
    {
      if pos + HDR_LEN > |data| {
        break;
      }
      var scan := ReadEntry(data, pos, gnuNames);
      if scan.Err? {
        return Err;
      }
      PrependTwice(members, scan.value.found, Parse(data, scan.value.next, scan.value.names));
      members := members + scan.value.found;
      gnuNames := scan.value.names;
      pos := scan.value.next;
    }
    assert members + [] == members;
    r := Ok(members);
  }

  /** A header whose size field was overwritten: hdr[48:58] = str(n).ljust(10). */
  function Resized(hdr: seq<Byte>, n: nat): seq<Byte>
    requires |hdr| == HDR_LEN
  {
    hdr[..48] + LeftJustify(Digits(n), 10) + hdr[58..]
  }

  /** Content and the pad byte of an odd size. */
  function Padded(content: seq<Byte>, size: nat): seq<Byte> {
    content + if size % 2 == 1 then [NEWLINE] else []
  }

  /** What the reassembly loop emits for a member of the given size whose header starts at pos. */
  function Piece(data: seq<Byte>, pos: nat, size: nat, replacements: map<nat, seq<Byte>>): seq<Byte>
    requires pos + HDR_LEN <= |data|
  {
    var hdr, start := data[pos..pos + HDR_LEN], pos + HDR_LEN;
    if pos in replacements then
      Resized(hdr, |replacements[pos]|) + Padded(replacements[pos], |replacements[pos]|)
    else
      hdr + Padded(Slice(data, start, start + size), size)
  }

  function Rewrite(data: seq<Byte>, pos: nat, replacements: map<nat, seq<Byte>>): Result<seq<Byte>>
    decreases |data| - pos
  {
    if |data| < pos + HDR_LEN then Ok([]) else
    match SizeOf(data[pos..pos + HDR_LEN])
    case None => Err
    case Some(size) =>
      Prepend(Piece(data, pos, size, replacements), Rewrite(data, Next(pos, size), replacements))
  }

  /** The reassembly loop of main. */
  method Reassemble(data: seq<Byte>, replacements: map<nat, seq<Byte>>) returns (r: Result<seq<Byte>>)
    ensures r == Prepend(MAGIC, Rewrite(data, 8, replacements))
  {
    var out := MAGIC;
    var pos: nat := 8;
    ghost var whole := Prepend(MAGIC, Rewrite(data, 8, replacements));
    while pos < |data|
      invariant whole == Prepend(out, Rewrite(data, pos, replacements))
      decreases |data| - pos
    {
      if pos + HDR_LEN > |data| {
        break;
      }
      var number := SizeOf(data[pos..pos + HDR_LEN]);
      if number.None? {
        return Err;
      }
      var size := number.value;
      var piece := EmitEntry(data, pos, size, replacements);
      ghost var rest := Rewrite(data, Next(pos, size), replacements);
      assert Rewrite(data, pos, replacements) == Prepend(piece, rest);
      PrependTwice(out, piece, rest);
      out := out + piece;
      assert whole == Prepend(out, rest);
      pos := Next(pos, size);
      assert rest == Rewrite(data, pos, replacements);
    }
    assert out + [] == out;
    r := Ok(out);
  }

  /** The bytes that one turn of the reassembly loop appends. */
  method EmitEntry(data: seq<Byte>, pos: nat, size: nat, replacements: map<nat, seq<Byte>>) returns (out: seq<Byte>)
    requires pos + HDR_LEN <= |data|
    ensures out == Piece(data, pos, size, replacements)
  {
    var hdr := data[pos..pos + HDR_LEN];
    var dataStart := pos + HDR_LEN;
    if pos in replacements {
      var newContent := replacements[pos];
      hdr := Resized(hdr, |newContent|);
      out := hdr + newContent;
      if |newContent| % 2 == 1 {
        out := out + [NEWLINE];
      }
      assert out == hdr + Padded(newContent, |newContent|);
    } else {
      out := hdr + Slice(data, dataStart, dataStart + size);
      if size % 2 == 1 {
        out := out + [NEWLINE];
      }
      assert out == hdr + Padded(Slice(data, dataStart, dataStart + size), size);
    }
  }

  lemma PrependNothing<T>(r: Result<seq<T>>)
    ensures Prepend([], r) == r
  {
    if r.Ok? {
      assert [] + r.value == r.value;
    }
  }

  lemma PrependTwice<T>(xs: seq<T>, ys: seq<T>, r: Result<seq<T>>)
    ensures Prepend(xs, Prepend(ys, r)) == Prepend(xs + ys, r)
  {
    if r.Ok? {
      assert xs + (ys + r.value) == xs + ys + r.value;
    }
  }
}

module ArchiveLaws {
  import opened Bytes
  import opened Decimal
  import opened Archive

  /** One header with what follows it. */
  datatype Entry = Entry(hdr: seq<Byte>, content: seq<Byte>, pad: seq<Byte>)

  predicate WellFormed(e: Entry) {
    |e.hdr| == HDR_LEN && SizeOf(e.hdr) == Some(|e.content|) && |e.pad| == |e.content| % 2
  }

  predicate AllWellFormed(es: seq<Entry>) { forall i | 0 <= i < |es| :: WellFormed(es[i]) }

  function Layout(es: seq<Entry>): seq<Byte> {
    if es == [] then [] else es[0].hdr + es[0].content + es[0].pad + Layout(es[1..])
  }

  /** A well-formed archive file. */
  function File(es: seq<Entry>): seq<Byte> { MAGIC + Layout(es) }

  /** What a reader finds: a named content and where its header stands. */
  datatype Item = Item(name: seq<Byte>, content: seq<Byte>, at: nat)

  /** ScanAt on a well-formed entry, with the content itself instead of its place. */
  function ItemsOf(e: Entry, pos: nat, names: seq<Byte>): Result<(seq<Item>, seq<Byte>)>
    requires |e.hdr| == HDR_LEN
  {
    match NameOf(e.hdr)
    case None => Err
    case Some(Table) => Ok(([], e.content))
    case Some(Index) => Ok(([], names))
    case Some(Long(at)) =>
      (match LongName(names, at)
       case None => Err
       case Some(name) => Ok(([Item(name, e.content, pos)], names)))
    case Some(Short(name)) => Ok(([Item(name, e.content, pos)], names))
  }

  function Items(es: seq<Entry>, pos: nat, names: seq<Byte>): Result<seq<Item>>
    requires AllWellFormed(es)
    decreases |es|
  {
    if es == [] then Ok([]) else
    match ItemsOf(es[0], pos, names)
    case Err => Err
    case Ok((found, names')) => Prepend(found, Items(es[1..], Next(pos, |es[0].content|), names'))
  }

  function ContentOf(data: seq<Byte>, m: Member): seq<Byte> {
    Slice(data, m.offset, m.offset + m.size)
  }

  predicate Recorded(data: seq<Byte>, m: Member, item: Item) {
    m.name == item.name && m.hdrOffset == item.at && ContentOf(data, m) == item.content
  }

  /** The recorded members name and delimit exactly the items. */
  predicate Records(data: seq<Byte>, ms: seq<Member>, items: seq<Item>) {
    |ms| == |items| && forall i | 0 <= i < |ms| :: Recorded(data, ms[i], items[i])
  }

  lemma RecordsAppend(data: seq<Byte>, ms: seq<Member>, ms': seq<Member>, items: seq<Item>, items': seq<Item>)
    requires Records(data, ms, items) && Records(data, ms', items')
    ensures Records(data, ms + ms', items + items')
  {
    forall i | 0 <= i < |ms + ms'|
      ensures Recorded(data, (ms + ms')[i], (items + items')[i])
    {
      if i >= |ms| {
        assert Recorded(data, ms'[i - |ms|], items'[i - |ms|]);
      }
    }
  }

  /** An entry stands at pos, followed by rest up to the end of the data. */
  predicate Stands(data: seq<Byte>, pos: nat, e: Entry, rest: seq<Byte>) {
    pos <= |data| && data[pos..] == e.hdr + e.content + e.pad + rest
  }

  lemma EntryInPlace(data: seq<Byte>, pos: nat, e: Entry, rest: seq<Byte>)
    requires WellFormed(e) && Stands(data, pos, e, rest)
    ensures Next(pos, |e.content|) <= |data| && data[Next(pos, |e.content|)..] == rest
    ensures data[pos..pos + HDR_LEN] == e.hdr
    ensures Slice(data, pos + HDR_LEN, pos + HDR_LEN + |e.content|) == e.content
  {
    var tail, n := data[pos..], |e.content|;
    assert |tail| == HDR_LEN + n + n % 2 + |rest|;
    assert data[pos..pos + HDR_LEN] == tail[..HDR_LEN] == e.hdr;
    assert data[pos + HDR_LEN..pos + HDR_LEN + n] == tail[HDR_LEN..HDR_LEN + n] == e.content;
    assert data[Next(pos, n)..] == tail[HDR_LEN + n + n % 2..] == rest;
  }

  lemma ItemsStep(es: seq<Entry>, pos: nat, names: seq<Byte>)
    requires AllWellFormed(es) && es != [] && ItemsOf(es[0], pos, names).Ok?
    ensures AllWellFormed(es[1..])
    ensures var found := ItemsOf(es[0], pos, names).value;
            Items(es, pos, names) == Prepend(found.0, Items(es[1..], Next(pos, |es[0].content|), found.1))
  {
  }

  lemma EntryParses(data: seq<Byte>, pos: nat, e: Entry, rest: seq<Byte>, names: seq<Byte>)
    requires WellFormed(e) && Stands(data, pos, e, rest)
    ensures pos + HDR_LEN <= |data|
    ensures var scan, items := ScanAt(data, pos, names), ItemsOf(e, pos, names);
            && (scan.Ok? <==> items.Ok?)
            && (scan.Ok? ==> scan.value.next == Next(pos, |e.content|) && scan.value.names == items.value.1
                             && Records(data, scan.value.found, items.value.0))
  {
    hide NameOf, LongName, ReadNumber, Layout;
    EntryInPlace(data, pos, e, rest);
  }

  /** Parsing a laid-out archive finds its items: same names, same order, same contents. */
  lemma {:induction false} ParseReadsItems(data: seq<Byte>, pos: nat, es: seq<Entry>, names: seq<Byte>)
    requires AllWellFormed(es) && pos <= |data| && data[pos..] == Layout(es)
    ensures var r, items := Parse(data, pos, names), Items(es, pos, names);
            (r.Ok? <==> items.Ok?) && (r.Ok? ==> Records(data, r.value, items.value))
    decreases |es|
  {
    if es != [] {
      EntryInPlace(data, pos, es[0], Layout(es[1..]));
      EntryParses(data, pos, es[0], Layout(es[1..]), names);
      var scan, found := ScanAt(data, pos, names), ItemsOf(es[0], pos, names);
      if found.Ok? {
        ItemsStep(es, pos, names);
        var next := Next(pos, |es[0].content|);
        ParseReadsItems(data, next, es[1..], found.value.1);
        var tail, items := Parse(data, next, found.value.1), Items(es[1..], next, found.value.1);
        if tail.Ok? {
          RecordsAppend(data, scan.value.found, tail.value, found.value.0, items.value);
        }
      }
    }
  }

  function Replaced(e: Entry, pos: nat, replacements: map<nat, seq<Byte>>): Entry
    requires |e.hdr| == HDR_LEN
  {
    if pos in replacements then
      var content := replacements[pos];
      Entry(Resized(e.hdr, |content|), content, Padded([], |content|))
    else e.(pad := Padded([], |e.content|))
  }

  function AllReplaced(es: seq<Entry>, pos: nat, replacements: map<nat, seq<Byte>>): seq<Entry>
    requires AllWellFormed(es)
    decreases |es|
  {
    if es == [] then []
    else [Replaced(es[0], pos, replacements)] + AllReplaced(es[1..], Next(pos, |es[0].content|), replacements)
  }

  lemma PieceOfEntry(data: seq<Byte>, e: Entry, pos: nat, replacements: map<nat, seq<Byte>>)
    requires pos + HDR_LEN <= |data| && WellFormed(e) && data[pos..pos + HDR_LEN] == e.hdr
    requires Slice(data, pos + HDR_LEN, pos + HDR_LEN + |e.content|) == e.content
    ensures var e' := Replaced(e, pos, replacements);
            Piece(data, pos, |e.content|, replacements) == e'.hdr + e'.content + e'.pad
  {
    var e' := Replaced(e, pos, replacements);
    assert e'.hdr + (e'.content + e'.pad) == e'.hdr + e'.content + e'.pad;
    assert Padded(e'.content, |e'.content|) == e'.content + e'.pad;
  }

  lemma LayoutStep(es: seq<Entry>, pos: nat, replacements: map<nat, seq<Byte>>)
    requires AllWellFormed(es) && es != []
    ensures var e' := Replaced(es[0], pos, replacements);
            Layout(AllReplaced(es, pos, replacements))
            == e'.hdr + e'.content + e'.pad
               + Layout(AllReplaced(es[1..], Next(pos, |es[0].content|), replacements))
  {
    var others := AllReplaced(es[1..], Next(pos, |es[0].content|), replacements);
    assert AllReplaced(es, pos, replacements)[1..] == others;
  }

  /** Reassembly lays out the replaced entries. */
  lemma {:induction false} RewriteLaysOut(data: seq<Byte>, pos: nat, es: seq<Entry>, replacements: map<nat, seq<Byte>>)
    requires AllWellFormed(es) && pos <= |data| && data[pos..] == Layout(es)
    ensures Rewrite(data, pos, replacements) == Ok(Layout(AllReplaced(es, pos, replacements)))
    decreases |es|
  {
    if es != [] {
      EntryInPlace(data, pos, es[0], Layout(es[1..]));
      PieceOfEntry(data, es[0], pos, replacements);
      RewriteLaysOut(data, Next(pos, |es[0].content|), es[1..], replacements);
      LayoutStep(es, pos, replacements);
    }
  }

  /** The patched header keeps its 60 bytes exactly while the new size is below 10^10. */
  lemma ResizedFitsIffBelowLimit(hdr: seq<Byte>, n: nat)
    requires |hdr| == HDR_LEN
    ensures |Resized(hdr, n)| == HDR_LEN <==> n < Power10(10)
  {
    DigitCount(n, 10);
  }

  lemma ResizedReadsBack(hdr: seq<Byte>, n: nat)
    requires |hdr| == HDR_LEN && n < Power10(10)
    ensures |Resized(hdr, n)| == HDR_LEN && SizeOf(Resized(hdr, n)) == Some(n)
    ensures NameOf(Resized(hdr, n)) == NameOf(hdr)
    ensures Resized(hdr, n)[..48] == hdr[..48] && Resized(hdr, n)[58..] == hdr[58..]
  {
    ResizedFitsIffBelowLimit(hdr, n);
    var field := LeftJustify(Digits(n), 10);
    FieldRoundTrip(n, 10);
    assert Resized(hdr, n)[48..58] == field;
    assert Resized(hdr, n)[..16] == hdr[..16];
  }

  predicate Fits(replacements: map<nat, seq<Byte>>) {
    forall k | k in replacements :: |replacements[k]| < Power10(10)
  }

  /** Only headers of members, never the index or the long-name table, are replaced. */
  predicate OnlyItems(replacements: map<nat, seq<Byte>>, items: seq<Item>, from: nat) {
    forall k | k in replacements && from <= k :: exists i :: 0 <= i < |items| && items[i].at == k
  }

  lemma {:induction false} ItemsStartAfter(es: seq<Entry>, pos: nat, names: seq<Byte>)
    requires AllWellFormed(es) && Items(es, pos, names).Ok?
    ensures forall item | item in Items(es, pos, names).value :: pos <= item.at
    decreases |es|
  {
    if es != [] {
      ItemsStartAfter(es[1..], Next(pos, |es[0].content|), ItemsOf(es[0], pos, names).value.1);
    }
  }

  /** b is a, renumbered, with the replaced contents exchanged. */
  predicate Swapped(a: seq<Item>, b: seq<Item>, replacements: map<nat, seq<Byte>>) {
    && |a| == |b|
    && forall i | 0 <= i < |a| ::
         b[i].name == a[i].name
         && b[i].content == if a[i].at in replacements then replacements[a[i].at] else a[i].content
  }

  lemma SwappedAppend(a: seq<Item>, a': seq<Item>, b: seq<Item>, b': seq<Item>, replacements: map<nat, seq<Byte>>)
    requires Swapped(a, b, replacements) && Swapped(a', b', replacements)
    ensures Swapped(a + a', b + b', replacements)
  {
  }

  lemma ItemsOfReplacedEntry(e: Entry, pos: nat, pos': nat, names: seq<Byte>, replacements: map<nat, seq<Byte>>)
    requires WellFormed(e) && Fits(replacements) && ItemsOf(e, pos, names).Ok?
    requires pos in replacements ==> ItemsOf(e, pos, names).value.0 != []
    ensures WellFormed(Replaced(e, pos, replacements))
    ensures var found, found' := ItemsOf(e, pos, names), ItemsOf(Replaced(e, pos, replacements), pos', names);
            && found'.Ok? && found'.value.1 == found.value.1
            && Swapped(found.value.0, found'.value.0, replacements)
  {
    if pos in replacements {
      ResizedReadsBack(e.hdr, |replacements[pos]|);
    }
  }

  /** The items of the replaced entries are the old items with the replaced contents exchanged. */
  lemma {:induction false} ItemsOfReplaced(es: seq<Entry>, pos: nat, pos': nat, names: seq<Byte>,
                                           replacements: map<nat, seq<Byte>>)
    requires AllWellFormed(es) && Items(es, pos, names).Ok?
    requires Fits(replacements) && OnlyItems(replacements, Items(es, pos, names).value, pos)
    ensures AllWellFormed(AllReplaced(es, pos, replacements))
    ensures var new_ := Items(AllReplaced(es, pos, replacements), pos', names);
            new_.Ok? && Swapped(Items(es, pos, names).value, new_.value, replacements)
    decreases |es|
  {
    hide ItemsOf, Fits, Resized, NameOf, SizeOf, LongName;
    if es != [] {
      var e, e' := es[0], Replaced(es[0], pos, replacements);
      FoundAt(e, pos, names);
      var next, next' := Next(pos, |e.content|), Next(pos', |e'.content|);
      var found, tail := ItemsOf(e, pos, names).value, Items(es[1..], next, ItemsOf(e, pos, names).value.1);
      ItemsStep(es, pos, names);
      OnlyItemsSplits(es[1..], next, found.1, found.0, pos, replacements);
      ItemsOfReplacedEntry(e, pos, pos', names, replacements);
      ItemsOfReplaced(es[1..], next, next', found.1, replacements);
      var rest := AllReplaced(es[1..], next, replacements);
      var all' := AllReplaced(es, pos, replacements);
      assert all' == [e'] + rest && all'[1..] == rest;
      var found', tail' := ItemsOf(e', pos', names).value, Items(rest, next', found.1);
      ItemsStep(all', pos', names);
      SwappedAppend(found.0, tail.value, found'.0, tail'.value, replacements);
    }
  }

  lemma FoundAt(e: Entry, pos: nat, names: seq<Byte>)
    requires |e.hdr| == HDR_LEN && ItemsOf(e, pos, names).Ok?
    ensures forall item | item in ItemsOf(e, pos, names).value.0 :: item.at == pos
  {
  }

  lemma OnlyItemsSplits(es: seq<Entry>, next: nat, names: seq<Byte>, found: seq<Item>, pos: nat,
                        replacements: map<nat, seq<Byte>>)
    requires AllWellFormed(es) && Items(es, next, names).Ok? && pos < next
    requires forall item | item in found :: item.at == pos
    requires OnlyItems(replacements, found + Items(es, next, names).value, pos)
    ensures OnlyItems(replacements, Items(es, next, names).value, next)
    ensures pos in replacements ==> found != []
  {
    var others := Items(es, next, names).value;
    ItemsStartAfter(es, next, names);
    forall k | k in replacements && next <= k
      ensures exists i :: 0 <= i < |others| && others[i].at == k
    {
      var i :| 0 <= i < |found + others| && (found + others)[i].at == k;
      assert others[i - |found|].at == k;
    }
  }

  /** The members of two files agree in names and order, and in contents up to the replacements. */
  predicate SameButReplaced(data: seq<Byte>, ms: seq<Member>, out: seq<Byte>, ms': seq<Member>,
                            replacements: map<nat, seq<Byte>>)
  {
    && |ms'| == |ms|
    && forall i | 0 <= i < |ms| ::
         && ms'[i].name == ms[i].name
         && ContentOf(out, ms'[i])
            == if ms[i].hdrOffset in replacements then replacements[ms[i].hdrOffset] else ContentOf(data, ms[i])
  }

  /** The main law. Reading the reassembled file gives the same member names in the same order, each
      with its replacement if it has one and with its old content otherwise. */
  lemma ReassembledFileReadsBack(es: seq<Entry>, replacements: map<nat, seq<Byte>>)
    requires AllWellFormed(es) && Fits(replacements) && ParseMembersSpec(File(es)).Ok?
    requires forall k | k in replacements ::
               exists i :: 0 <= i < |ParseMembersSpec(File(es)).value| && ParseMembersSpec(File(es)).value[i].hdrOffset == k
    ensures var out := Prepend(MAGIC, Rewrite(File(es), 8, replacements));
            && out.Ok? && ParseMembersSpec(out.value).Ok?
            && SameButReplaced(File(es), ParseMembersSpec(File(es)).value,
                               out.value, ParseMembersSpec(out.value).value, replacements)
  {
    FileParses(es);
    RewriteLaysOut(File(es), 8, es, replacements);
    var ms, items := ParseMembersSpec(File(es)).value, Items(es, 8, []).value;
    forall k | k in replacements && 8 <= k
      ensures exists i :: 0 <= i < |items| && items[i].at == k
    {
      var i :| 0 <= i < |ms| && ms[i].hdrOffset == k;
      assert items[i].at == k;
    }
    ItemsOfReplaced(es, 8, 8, [], replacements);
    var es' := AllReplaced(es, 8, replacements);
    FileParses(es');
    RecordsOfSwapped(File(es), ms, items, File(es'), ParseMembersSpec(File(es')).value, Items(es', 8, []).value, replacements);
  }

  lemma FileParses(es: seq<Entry>)
    requires AllWellFormed(es)
    ensures var r, items := ParseMembersSpec(File(es)), Items(es, 8, []);
            (r.Ok? <==> items.Ok?) && (r.Ok? ==> Records(File(es), r.value, items.value))
  {
    assert Slice(File(es), 0, 8) == MAGIC && File(es)[8..] == Layout(es);
    ParseReadsItems(File(es), 8, es, []);
  }

  lemma RecordsOfSwapped(data: seq<Byte>, ms: seq<Member>, items: seq<Item>,
                         out: seq<Byte>, ms': seq<Member>, items': seq<Item>, replacements: map<nat, seq<Byte>>)
    requires Records(data, ms, items) && Records(out, ms', items') && Swapped(items, items', replacements)
    ensures SameButReplaced(data, ms, out, ms', replacements)
  {
  }

  predicate NewlinePads(es: seq<Entry>) {
    forall i | 0 <= i < |es| :: es[i].pad == if |es[i].content| % 2 == 1 then [0x0A] else []
  }

  /** With nothing to replace, the file comes back byte for byte exactly when every pad byte is a
      newline: reassembly writes its own padding. */
  lemma NothingReplacedIffNewlinePads(es: seq<Entry>)
    requires AllWellFormed(es)
    ensures Prepend(MAGIC, Rewrite(File(es), 8, map[])) == Ok(File(es)) <==> NewlinePads(es)
  {
    assert File(es)[8..] == Layout(es);
    RewriteLaysOut(File(es), 8, es, map[]);
    LayoutOfReplaced(es, 8);
    var out := Layout(AllReplaced(es, 8, map[]));
    SamePartsIffSame(MAGIC, [], [], out, Layout(es));
    assert MAGIC + [] == MAGIC;
  }

  lemma NewlinePadsStep(es: seq<Entry>)
    requires es != []
    ensures NewlinePads(es) <==> es[0].pad == Padded([], |es[0].content|) && NewlinePads(es[1..])
  {
    assert forall i | 0 < i < |es| :: es[i] == es[1..][i - 1];
  }

  lemma {:induction false} LayoutOfReplaced(es: seq<Entry>, pos: nat)
    requires AllWellFormed(es)
    ensures |Layout(AllReplaced(es, pos, map[]))| == |Layout(es)|
    ensures Layout(AllReplaced(es, pos, map[])) == Layout(es) <==> NewlinePads(es)
    decreases |es|
  {
    if es != [] {
      var e, next := es[0], Next(pos, |es[0].content|);
      LayoutStep(es, pos, map[]);
      LayoutOfReplaced(es[1..], next);
      var out, head, pad' := Layout(AllReplaced(es[1..], next, map[])), e.hdr + e.content, Padded([], |e.content|);
      SamePartsIffSame(head, pad', e.pad, out, Layout(es[1..]));
      NewlinePadsStep(es);
    }
  }

  lemma SamePartsIffSame<T>(head: seq<T>, a: seq<T>, b: seq<T>, x: seq<T>, y: seq<T>)
    requires |a| == |b| && |x| == |y|
    ensures head + a + x == head + b + y <==> a == b && x == y
  {
    assert head + a + x == head + (a + x) && head + b + y == head + (b + y);
    if head + a + x == head + b + y {
      assert a + x == (head + (a + x))[|head|..] == (head + (b + y))[|head|..] == b + y;
      assert a == (a + x)[..|a|] && x == (a + x)[|a|..];
      assert b == (b + y)[..|b|] && y == (b + y)[|b|..];
    }
  }

  // What the bytes of an entry mean, as the format has it.

  /** A field of 16 bytes: a text and spaces. */
  function Field(text: seq<Byte>): seq<Byte>
    requires |text| <= 16
  {
    text + Fill(0x20, 16 - |text|)
  }

  predicate Ascii(s: seq<Byte>) { forall i | 0 <= i < |s| :: s[i] < 0x80 }

  /** The header of 60 bytes has that name field in front and the size of the content, in decimal and
      filled up with spaces, in its bytes 48 to 57. */
  predicate Headed(e: Entry, name: seq<Byte>) {
    |e.hdr| == 60 && e.hdr[..16] == name && e.hdr[48..58] == LeftJustify(Digits(|e.content|), 10) &&
    |e.pad| == |e.content| % 2
  }

  lemma HeadedIsWellFormed(e: Entry, name: seq<Byte>)
    requires Headed(e, name)
    ensures WellFormed(e)
  {
    hide LeftJustify, Digits, ReadNumber;
    FieldRoundTrip(|e.content|, 10);
  }

  lemma AsciiField(text: seq<Byte>)
    requires |text| <= 16 && Ascii(text)
    ensures AllAscii(Field(text))
  {
    forall b | b in Field(text) ensures b < 0x80 {
      var i :| 0 <= i < 16 && Field(text)[i] == b;
      if i < |text| { assert text[i] < 0x80; }
    }
  }

  lemma StrippedField(text: seq<Byte>)
    requires 0 < |text| <= 16 && !IsSpace(text[|text| - 1])
    ensures StripRight(Field(text)) == text
  {
    StripTrailing(text, 16 - |text|);
  }

  /** An entry "//" is the table of long names: no member, and its content is the table from here on. */
  lemma TableEntry(data: seq<Byte>, pos: nat, e: Entry, rest: seq<Byte>, names: seq<Byte>)
    requires Headed(e, Field([0x2F, 0x2F])) && Stands(data, pos, e, rest)
    ensures pos + 60 <= |data|
    ensures ScanAt(data, pos, names) == Ok(Scan([], pos + 60 + |e.content| + |e.content| % 2, e.content))
  {
    HeadedIsWellFormed(e, Field([0x2F, 0x2F]));
    EntryInPlace(data, pos, e, rest);
    AsciiField([0x2F, 0x2F]);
    StrippedField([0x2F, 0x2F]);
  }

  /** An entry "/" is the symbol index: no member, and the table stays. */
  lemma IndexEntry(data: seq<Byte>, pos: nat, e: Entry, rest: seq<Byte>, names: seq<Byte>)
    requires Headed(e, Field([0x2F])) && Stands(data, pos, e, rest)
    ensures pos + 60 <= |data|
    ensures ScanAt(data, pos, names) == Ok(Scan([], pos + 60 + |e.content| + |e.content| % 2, names))
  {
    HeadedIsWellFormed(e, Field([0x2F]));
    EntryInPlace(data, pos, e, rest);
    AsciiField([0x2F]);
    StrippedField([0x2F]);
  }

  lemma SlashStripped(n: seq<Byte>)
    requires n != [] && n[|n| - 1] != 0x2F
    ensures StripSlashes(n) == n && StripSlashes(n + [0x2F]) == n
  {
    assert (n + [0x2F])[..|n|] == n;
  }

  /** An entry whose name field holds n and "/", as GNU ar writes it, or n alone is a member named n. */
  lemma ShortEntry(data: seq<Byte>, pos: nat, e: Entry, rest: seq<Byte>, names: seq<Byte>, n: seq<Byte>)
    requires 0 < |n| <= 15 && Ascii(n) && 0x2F !in n
    requires Headed(e, Field(n + [0x2F])) || (!IsSpace(n[|n| - 1]) && Headed(e, Field(n)))
    requires Stands(data, pos, e, rest)
    ensures pos + 60 <= |data|
    ensures ScanAt(data, pos, names)
            == Ok(Scan([Member(n, pos + 60, |e.content|, pos)], pos + 60 + |e.content| + |e.content| % 2, names))
  {
    hide SizeOf, NameOf, LeftJustify, Digits;
    var text := if Headed(e, Field(n + [0x2F])) then n + [0x2F] else n;
    HeadedIsWellFormed(e, Field(text));
    EntryInPlace(data, pos, e, rest);
    ShortName(e.hdr, n, text);
  }

  lemma ShortName(hdr: seq<Byte>, n: seq<Byte>, text: seq<Byte>)
    requires |hdr| == HDR_LEN && 0 < |n| <= 15 && Ascii(n) && 0x2F !in n
    requires text == n + [0x2F] || (text == n && !IsSpace(n[|n| - 1]))
    requires hdr[..16] == Field(text)
    ensures NameOf(hdr) == Some(Short(n))
  {
    hide Value, StripRight, StripSlashes, AllAscii, Field;
    assert Ascii(text) by { assert forall i | 0 <= i < |n| :: text[i] == n[i]; }
    AsciiField(text);
    StrippedField(text);
    SlashStripped(n);
    assert text[0] == n[0] && n[0] in n;
  }

  lemma {:induction false} NameEndsAt(names: seq<Byte>, at: nat, end: nat)
    requires at <= end && end + 2 <= |names| && names[end] == 0x2F && names[end + 1] == 0x0A
    requires forall k | at <= k < end :: !(names[k] == 0x2F && names[k + 1] == 0x0A)
    ensures NameEnd(names, at) == Some(end)
    decreases end - at
  {
    if at < end {
      assert names[at..at + 2] == [names[at], names[at + 1]];
      NameEndsAt(names, at + 1, end);
    }
  }

  /** An entry whose name field holds "/" and a number is a member with the name that starts at that
      place of the table and ends before the next "/\n". */
  lemma LongEntry(data: seq<Byte>, pos: nat, e: Entry, rest: seq<Byte>, names: seq<Byte>, at: nat, n: seq<Byte>)
    requires |Digits(at)| <= 15 && Headed(e, Field([0x2F] + Digits(at))) && Stands(data, pos, e, rest)
    requires at + |n| + 2 <= |names| && names[at..at + |n|] == n && Ascii(n)
    requires names[at + |n|] == 0x2F && names[at + |n| + 1] == 0x0A
    requires forall k | at <= k < at + |n| :: !(names[k] == 0x2F && names[k + 1] == 0x0A)
    ensures pos + 60 <= |data|
    ensures ScanAt(data, pos, names)
            == Ok(Scan([Member(n, pos + 60, |e.content|, pos)], pos + 60 + |e.content| + |e.content| % 2, names))
  {
    hide SizeOf, Digits, Value, NameEnd;
    var digits := Digits(at);
    var text := [0x2F] + digits;
    HeadedIsWellFormed(e, Field(text));
    EntryInPlace(data, pos, e, rest);
    DigitsAscii(digits);
    AsciiField(text);
    StrippedField(text);
    assert text[1..] == digits && text[1] == digits[0];
    ValueOfDigits(at);
    NameEndsAt(names, at, at + |n|);
    assert AllAscii(n);
    assert NameOf(e.hdr) == Some(Long(at));
  }

  lemma DigitsAscii(s: seq<Byte>)
    requires AllDigits(s) && s != []
    ensures Ascii([0x2F] + s) && !IsSpace(([0x2F] + s)[|s|]) && s[0] != 0x2F
  {
    assert forall i | 0 <= i < |s| :: s[i] in s;
  }

  /** The constants of the format: its magic, the size of a header, decimal digits in ASCII. */
  lemma FormatConstants()
    ensures MAGIC == [0x21, 0x3C, 0x61, 0x72, 0x63, 0x68, 0x3E, 0x0A] && HDR_LEN == 60
    ensures Digits(1065) == [0x31, 0x30, 0x36, 0x35] && Value([0x31, 0x30, 0x36, 0x35]) == 1065
    ensures Power10(10) == 10_000_000_000
  {
    assert Digits(1) == [0x31] && Digits(10) == [0x31, 0x30] && Digits(106) == [0x31, 0x30, 0x36];
    ValueOfDigits(1065);
    assert Power10(2) == 100 && Power10(4) == 10_000 && Power10(6) == 1_000_000 && Power10(8) == 100_000_000;
  }
}
