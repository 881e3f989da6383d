/**
 The ESC settings image and its text form: print what differs from the firmware
 defaults, parse it back, build the image again.
 */
module Params {
  import opened Bytes
  import opened ParamText
  import opened ParamNumbers

  const EEPROM_SIZE: nat := 192

  datatype Param = Param(offset: nat, name: string)

  /** The engineering value shown beside a byte, "" for none. */
  type Calc = (string, byte) -> string

  predicate IsName(s: string) {
    IsWord(s) && forall i :: 0 <= i < |s| ==> !('a' <= s[i] <= 'z')
  }

  /** Distinct names at distinct places inside the image. */
  predicate ValidTable(table: seq<Param>) {
    && (forall i :: 0 <= i < |table| ==> table[i].offset < EEPROM_SIZE && IsName(table[i].name))
    && (forall i, j :: 0 <= i < j < |table| ==>
          table[i].offset != table[j].offset && table[i].name != table[j].name)
  }

  /** The fixed words of a printed file: its opening lines, the note on unnamed bytes, the values shown. */
  datatype Wording = Wording(preamble: seq<string>, note: string, show: Calc)

  /** A line the parser passes over. */
  predicate Comment(s: string) {
    OneLine(s) && (s == "" || s[0] == '#')
  }

  ghost predicate ValidWording(w: Wording) {
    && (forall i :: 0 <= i < |w.preamble| ==> Comment(w.preamble[i]))
    && Comment(w.note) && w.note != ""
    && (forall name, v :: OneLine(w.show(name, v)))
  }

  type Overrides = map<string, int>

  // ------------------------------------------------------ from image to names

  predicate Differs(base: seq<byte>, image: seq<byte>, off: nat) {
    off < |image| && off < |base| && image[off] != base[off]
  }

  /** The named parameters that differ from the base, over the first n of the table. */
  function NamedUpTo(table: seq<Param>, base: seq<byte>, image: seq<byte>, n: nat): (o: Overrides)
    requires n <= |table|
    ensures forall name :: name in o ==> exists i :: 0 <= i < n && table[i].name == name
  {
    if n == 0 then map[]
    else
      var p := table[n - 1];
      var before := NamedUpTo(table, base, image, n - 1);
      if Differs(base, image, p.offset) then before[p.name := image[p.offset]] else before
  }

  function Named(table: seq<Param>, base: seq<byte>, image: seq<byte>): Overrides {
    NamedUpTo(table, base, image, |table|)
  }

  predicate HasName(table: seq<Param>, off: nat) {
    exists i :: 0 <= i < |table| && table[i].offset == off
  }

  /** The offsets that differ but have no name. */
  function UnnamedUpTo(table: seq<Param>, base: seq<byte>, image: seq<byte>, n: nat): seq<nat> {
    if n == 0 then []
    else
      UnnamedUpTo(table, base, image, n - 1) +
      if Differs(base, image, n - 1) && !HasName(table, n - 1) then [n - 1] else []
  }

  function Unnamed(table: seq<Param>, base: seq<byte>, image: seq<byte>): seq<nat> {
    UnnamedUpTo(table, base, image, EEPROM_SIZE)
  }

  lemma DistinctNames(table: seq<Param>, i: nat, j: nat)
    requires ValidTable(table) && i < |table| && j < |table| && i != j
    ensures table[i].name != table[j].name
  {}

  /** An override is there exactly for the named bytes that differ, with the image's byte. */
  lemma {:induction false} NamedExactly(table: seq<Param>, base: seq<byte>, image: seq<byte>, n: nat, i: nat)
    requires ValidTable(table) && i < |table| && n <= |table|
    ensures var o := NamedUpTo(table, base, image, n);
            && (table[i].name in o <==> i < n && Differs(base, image, table[i].offset))
            && (table[i].name in o ==> o[table[i].name] == image[table[i].offset])
  {
    hide ValidTable;
    if n > 0 {
      NamedExactly(table, base, image, n - 1, i);
      if i != n - 1 {
        DistinctNames(table, i, n - 1);
      }
    }
  }

  // ------------------------------------------------------- from names to image

  /** The place of a name in the table, |table| when it has none. */
  function FindName(table: seq<Param>, name: string): (i: nat)
    ensures i <= |table|
    ensures i < |table| ==> table[i].name == name
    ensures forall k :: 0 <= k < i ==> table[k].name != name
  {
    if table == [] || table[0].name == name then 0 else 1 + FindName(table[1..], name)
  }

  /** The place of an offset in the table, |table| when it has none. */
  function FindOffset(table: seq<Param>, off: nat): (i: nat)
    ensures i <= |table|
    ensures i < |table| ==> table[i].offset == off
    ensures forall k :: 0 <= k < i ==> table[k].offset != off
  {
    if table == [] || table[0].offset == off then 0 else 1 + FindOffset(table[1..], off)
  }

  predicate Acceptable(table: seq<Param>, name: string, value: int) {
    FindName(table, name) < |table| && 0 <= value <= 255
  }

  /** The byte of a built image at one offset. */
  function BuiltByte(table: seq<Param>, base: seq<byte>, o: Overrides, off: nat): int
    requires off < |base|
  {
    var i := FindOffset(table, off);
    if i < |table| && table[i].name in o then o[table[i].name] else base[off]
  }

  /** None where a name is unknown or a value is not a byte. */
  function Build(table: seq<Param>, base: seq<byte>, o: Overrides): (r: Option<seq<byte>>)
    ensures r.Some? ==> |r.value| == |base|
  {
    if forall name :: name in o ==> Acceptable(table, name, o[name]) then
      Some(seq(|base|, off requires 0 <= off < |base| => AsByte(BuiltByte(table, base, o, off))))
    else None
  }

  function AsByte(n: int): byte {
    if 0 <= n < 256 then n else 0
  }

  /** Building from an image's overrides gives it back exactly when no unnamed byte differs. */
  lemma BuildRestores(table: seq<Param>, base: seq<byte>, image: seq<byte>)
    requires ValidTable(table) && |base| == |image| == EEPROM_SIZE
    ensures Build(table, base, Named(table, base, image)) == Some(image) <==> Unnamed(table, base, image) == []
  {
    hide NamedUpTo, UnnamedUpTo, ValidTable, FindName, FindOffset;
    var o := Named(table, base, image);
    NamedAcceptable(table, base, image);
    var built := Build(table, base, o).value;
    forall off | 0 <= off < EEPROM_SIZE
      ensures built[off] == image[off] <==> !(Differs(base, image, off) && !HasName(table, off))
    {
      BuiltByteIs(table, base, image, off);
    }
    UnnamedEmpty(table, base, image, EEPROM_SIZE);
    if Unnamed(table, base, image) == [] {
      assert built == image;
    }
  }

  lemma NamedAcceptable(table: seq<Param>, base: seq<byte>, image: seq<byte>)
    requires ValidTable(table)
    ensures Build(table, base, Named(table, base, image)).Some?
  {
    hide NamedUpTo;
    var o := Named(table, base, image);
    forall name | name in o ensures Acceptable(table, name, o[name]) {
      var i :| 0 <= i < |table| && table[i].name == name;
      NamedExactly(table, base, image, |table|, i);
    }
  }

  lemma BuiltByteIs(table: seq<Param>, base: seq<byte>, image: seq<byte>, off: nat)
    requires ValidTable(table) && |base| == |image| == EEPROM_SIZE && off < EEPROM_SIZE
    ensures BuiltByte(table, base, Named(table, base, image), off) == if HasName(table, off) then image[off] else base[off]
  {
    hide NamedUpTo;
    var i := FindOffset(table, off);
    if i < |table| {
      NamedExactly(table, base, image, |table|, i);
    }
  }

  lemma {:induction false} UnnamedEmpty(table: seq<Param>, base: seq<byte>, image: seq<byte>, n: nat)
    ensures UnnamedUpTo(table, base, image, n) == [] <==>
            forall off :: 0 <= off < n ==> !(Differs(base, image, off) && !HasName(table, off))
  {
    if n > 0 {
      UnnamedEmpty(table, base, image, n - 1);
    }
  }

  // ------------------------------------------------------------------- printing

  function Stripped(s: string): string {
    if s != "" && IsSpace(s[|s| - 1]) then Stripped(s[..|s| - 1]) else s
  }

  function HeaderComments(lines: seq<string>): seq<string> {
    if lines == [] then [] else [Stripped("# " + lines[0])] + HeaderComments(lines[1..])
  }

  function Listed(offsets: seq<nat>): string {
    if offsets == [] then ""
    else if |offsets| == 1 then Decimal(offsets[0])
    else Decimal(offsets[0]) + ", " + Listed(offsets[1..])
  }

  function Notes(w: Wording, unnamed: seq<nat>): seq<string> {
    if unnamed == [] then [] else [w.note + Listed(unnamed), ""]
  }

  function Entry(w: Wording, name: string, v: byte): string {
    var shown := w.show(name, v);
    PadRight(name, 24) + " " + PadLeft(Decimal(v), 3) + if shown == "" then "" else "   # " + shown
  }

  function EntriesUpTo(table: seq<Param>, w: Wording, base: seq<byte>, image: seq<byte>, n: nat): seq<string>
    requires n <= |table|
  {
    if n == 0 then []
    else
      var p := table[n - 1];
      EntriesUpTo(table, w, base, image, n - 1) +
      if Differs(base, image, p.offset) then [Entry(w, p.name, image[p.offset])] else []
  }

  function PrintedLines(table: seq<Param>, w: Wording, base: seq<byte>, image: seq<byte>, header: string): seq<string> {
    HeaderComments(HeaderLines(header)) + w.preamble + Notes(w, Unnamed(table, base, image)) +
    EntriesUpTo(table, w, base, image, |table|)
  }

  function Format(table: seq<Param>, w: Wording, base: seq<byte>, image: seq<byte>, header: string): string {
    JoinLines(PrintedLines(table, w, base, image, header))
  }

  // -------------------------------------------------------------------- parsing

  datatype Parsed = Settings(overrides: Overrides) | Malformed(line: nat) | Unknown(line: nat)

  function LineFields(line: string): seq<string> {
    Fields(CommasOut(BeforeHash(line)))
  }

  /** One line, numbered from one, on top of the settings before it. */
  function ParseLine(table: seq<Param>, o: Overrides, line: string, number: nat): Parsed {
    var f := LineFields(line);
    if f == [] then Settings(o)
    else if |f| != 2 then Malformed(number)
    else if FindName(table, Upper(f[0])) == |table| then Unknown(number)
    else
      match ParseNumber(f[1])
      case None => Malformed(number)
      case Some(v) => Settings(o[Upper(f[0]) := v])
  }

  function ParseUpTo(table: seq<Param>, lines: seq<string>, n: nat): Parsed
    requires n <= |lines|
  {
    if n == 0 then Settings(map[])
    else
      match ParseUpTo(table, lines, n - 1)
      case Settings(o) => ParseLine(table, o, lines[n - 1], n)
      case failed => failed
  }

  function Parse(table: seq<Param>, text: string): Parsed {
    ParseUpTo(table, FileLines(text), |FileLines(text)|)
  }

  // ----------------------------------------------------------------- round trip

  lemma {:induction false} StrippedComment(s: string)
    requires s != "" && s[0] == '#' && OneLine(s)
    ensures Comment(Stripped(s)) && Stripped(s) != ""
    decreases |s|
  {
    if IsSpace(s[|s| - 1]) {
      StrippedComment(s[..|s| - 1]);
    }
  }

  lemma {:induction false} HeaderIsComments(lines: seq<string>)
    requires AllOneLine(lines)
    ensures forall i :: 0 <= i < |HeaderComments(lines)| ==> Comment(HeaderComments(lines)[i])
    decreases |lines|
  {
    hide Stripped, Comment;
    if lines != [] {
      StrippedComment("# " + lines[0]);
      HeaderIsComments(lines[1..]);
    }
  }

  lemma {:induction false} ListedOneLine(offsets: seq<nat>)
    ensures OneLine(Listed(offsets))
  {
    if |offsets| > 1 {
      ListedOneLine(offsets[1..]);
    }
  }

  lemma NotesAreComments(w: Wording, unnamed: seq<nat>)
    requires ValidWording(w)
    ensures forall i :: 0 <= i < |Notes(w, unnamed)| ==> Comment(Notes(w, unnamed)[i])
  {
    ListedOneLine(unnamed);
    OneLineJoined(w.note, Listed(unnamed));
  }

  lemma CommentPasses(table: seq<Param>, o: Overrides, line: string, number: nat)
    requires Comment(line)
    ensures ParseLine(table, o, line, number) == Settings(o)
  {
    assert BeforeHash(line) == "";
  }

  /** Two words, spaces around them, then a comment. */
  lemma TwoFields(name: string, gap: string, value: string, tail: string, comment: string)
    requires IsWord(name) && IsWord(value) && Blank(gap) && Blank(tail) && gap != ""
    requires Clean(gap) && Clean(tail) && (comment == "" || comment[0] == '#')
    ensures LineFields(name + gap + value + tail + comment) == [name, value]
  {
    hide Fields, BeforeHash, CommasOut, IsSpace;
    CleanStays(name + gap + value + tail, comment);
    assert name + gap + value + tail == name + (gap + (value + tail));
    FieldsWord(name, gap + (value + tail));
    FieldsBlank(gap, value + tail);
    FieldsWord(value, tail);
    FieldsBlank(tail, "");
    assert tail + "" == tail;
    NoFields();
  }

  /** An entry reads back as the name and byte it was printed from. */
  lemma EntryFields(w: Wording, name: string, v: byte)
    requires IsName(name)
    ensures LineFields(Entry(w, name, v)) == [name, Decimal(v)]
  {
    hide Decimal, Spaces, LineFields;
    var digits, shown := Decimal(v), w.show(name, v);
    var gap := Spaces(24 - |name|) + " " + Spaces(3 - |digits|);
    var tail := if shown == "" then "" else "   ";
    var comment := if shown == "" then "" else "# " + shown;
    assert "   # " + shown == "   " + ("# " + shown);
    assert Entry(w, name, v) == name + gap + digits + tail + comment;
    DecimalIsWord(v);
    TwoFields(name, gap, digits, tail, comment);
  }

  lemma NoFields()
    ensures Fields("") == []
  {}

  lemma DecimalIsWord(v: nat)
    ensures IsWord(Decimal(v))
  {}

  lemma EntryParses(table: seq<Param>, w: Wording, o: Overrides, i: nat, v: byte, number: nat)
    requires ValidTable(table) && i < |table|
    ensures ParseLine(table, o, Entry(w, table[i].name, v), number) == Settings(o[table[i].name := v])
  {
    hide Entry, LineFields, ParseNumber, Decimal;
    EntryFields(w, table[i].name, v);
    UpperStays(table[i].name);
    DecimalRead(v);
  }

  lemma {:induction false} CommentsPass(table: seq<Param>, lines: seq<string>, n: nat)
    requires n <= |lines| && forall i :: 0 <= i < n ==> Comment(lines[i])
    ensures ParseUpTo(table, lines, n) == Settings(map[])
  {
    hide ParseLine, Comment;
    if n > 0 {
      CommentsPass(table, lines, n - 1);
      CommentPasses(table, map[], lines[n - 1], n);
    }
  }

  lemma {:induction false} ParsePrefix(table: seq<Param>, lines: seq<string>, more: seq<string>, n: nat)
    requires n <= |lines|
    ensures ParseUpTo(table, lines + more, n) == ParseUpTo(table, lines, n)
  {
    hide ParseLine;
    if n > 0 {
      ParsePrefix(table, lines, more, n - 1);
    }
  }

  lemma {:induction false} EntriesParse(
    table: seq<Param>, w: Wording, base: seq<byte>, image: seq<byte>, comments: seq<string>, n: nat)
    requires ValidTable(table) && n <= |table| && forall i :: 0 <= i < |comments| ==> Comment(comments[i])
    ensures var lines := comments + EntriesUpTo(table, w, base, image, n);
            ParseUpTo(table, lines, |lines|) == Settings(NamedUpTo(table, base, image, n))
  {
    hide ParseLine, Comment, Entry, ValidTable;
    var before := comments + if n == 0 then [] else EntriesUpTo(table, w, base, image, n - 1);
    if n == 0 {
      assert comments + [] == comments;
      CommentsPass(table, comments, |comments|);
    } else {
      EntriesParse(table, w, base, image, comments, n - 1);
      var p := table[n - 1];
      if Differs(base, image, p.offset) {
        var line := Entry(w, p.name, image[p.offset]);
        assert comments + EntriesUpTo(table, w, base, image, n) == before + [line];
        ParsePrefix(table, before, [line], |before|);
        EntryParses(table, w, NamedUpTo(table, base, image, n - 1), n - 1, image[p.offset], |before| + 1);
      } else {
        assert comments + EntriesUpTo(table, w, base, image, n) == before;
      }
    }
  }

  lemma {:induction false} EntriesOneLine(table: seq<Param>, w: Wording, base: seq<byte>, image: seq<byte>, n: nat)
    requires ValidTable(table) && ValidWording(w) && n <= |table|
    ensures AllOneLine(EntriesUpTo(table, w, base, image, n))
  {
    hide Entry, ValidWording;
    if n > 0 {
      EntriesOneLine(table, w, base, image, n - 1);
      if Differs(base, image, table[n - 1].offset) {
        EntryOneLine(w, table[n - 1].name, image[table[n - 1].offset]);
      }
    }
  }

  lemma EntryOneLine(w: Wording, name: string, v: byte)
    requires IsName(name) && ValidWording(w)
    ensures OneLine(Entry(w, name, v))
  {
    hide Spaces, Decimal;
    assert OneLine(name) && OneLine(Decimal(v)) && OneLine(" ") && OneLine("   # ");
    OneLineJoined("   # ", w.show(name, v));
  }

  /** Any image printed with any header parses to exactly its named overrides. */
  lemma ParseOfFormat(table: seq<Param>, w: Wording, base: seq<byte>, image: seq<byte>, header: string)
    requires ValidTable(table) && ValidWording(w)
    ensures Parse(table, Format(table, w, base, image, header)) == Settings(Named(table, base, image))
  {
    hide Comment, ValidTable, EntriesUpTo, NamedUpTo, UnnamedUpTo, ParseUpTo, HeaderComments, HeaderLines, Notes, OneLine;
    var comments := HeaderComments(HeaderLines(header)) + w.preamble + Notes(w, Unnamed(table, base, image));
    HeaderIsComments(HeaderLines(header));
    NotesAreComments(w, Unnamed(table, base, image));
    forall i | 0 <= i < |comments| ensures Comment(comments[i]) && OneLine(comments[i]) {
      CommentOneLine(comments[i]);
    }
    EntriesOneLine(table, w, base, image, |table|);
    assert PrintedLines(table, w, base, image, header) == comments + EntriesUpTo(table, w, base, image, |table|);
    LinesRead(PrintedLines(table, w, base, image, header));
    EntriesParse(table, w, base, image, comments, |table|);
  }

  lemma CommentOneLine(s: string)
    ensures Comment(s) ==> OneLine(s)
  {}

  /** Text to image and back: restored exactly when no unnamed byte differs. */
  lemma TextRestores(table: seq<Param>, w: Wording, base: seq<byte>, image: seq<byte>, header: string)
    requires ValidTable(table) && ValidWording(w) && |base| == |image| == EEPROM_SIZE
    ensures var parsed := Parse(table, Format(table, w, base, image, header));
            && parsed.Settings?
            && (Build(table, base, parsed.overrides) == Some(image) <==> Unnamed(table, base, image) == [])
  {
    hide Parse, Format, Build, Named, Unnamed, ValidTable;
    ParseOfFormat(table, w, base, image, header);
    BuildRestores(table, base, image);
  }

  // ----------------------------------------------------------------- the loops

  lemma HasNameFound(table: seq<Param>, off: nat)
    ensures HasName(table, off) <==> FindOffset(table, off) < |table|
  {}

  /** The overrides gathered so far, with every offset below off looked at. */
  predicate Gathered(table: seq<Param>, base: seq<byte>, image: seq<byte>, o: Overrides, off: nat) {
    && (forall name :: name in o ==> FindName(table, name) < |table|)
    && (forall i :: 0 <= i < |table| ==>
          (table[i].name in o <==> table[i].offset < off && Differs(base, image, table[i].offset)))
    && (forall i :: 0 <= i < |table| && table[i].name in o ==>
          Differs(base, image, table[i].offset) && o[table[i].name] == image[table[i].offset])
  }

  lemma GatheredAll(table: seq<Param>, base: seq<byte>, image: seq<byte>, o: Overrides, off: nat)
    requires ValidTable(table) && Gathered(table, base, image, o, off) && (off >= EEPROM_SIZE || off >= |image|)
    ensures o == Named(table, base, image)
  {
    hide NamedUpTo;
    var named := Named(table, base, image);
    forall i | 0 <= i < |table|
      ensures table[i].name in o <==> table[i].name in named
      ensures table[i].name in o ==> o[table[i].name] == named[table[i].name]
    {
      NamedExactly(table, base, image, |table|, i);
    }
    forall name ensures name in o <==> name in named {
      if name in o {
        assert table[FindName(table, name)].name in o;
      }
      if name in named {
        var i :| 0 <= i < |table| && table[i].name == name;
      }
    }
  }

  lemma {:induction false} UnnamedBeyond(table: seq<Param>, base: seq<byte>, image: seq<byte>, n: nat, off: nat)
    requires off <= n && |image| <= off
    ensures UnnamedUpTo(table, base, image, n) == UnnamedUpTo(table, base, image, off)
    decreases n
  {
    if off < n {
      UnnamedBeyond(table, base, image, n - 1, off);
    }
  }

  lemma FoundOnce(table: seq<Param>, i: nat)
    requires ValidTable(table) && i < |table|
    ensures FindName(table, table[i].name) == i && FindOffset(table, table[i].offset) == i
  {}

  lemma GatherOne(table: seq<Param>, base: seq<byte>, image: seq<byte>, o: Overrides, off: nat)
    requires ValidTable(table) && off < |base| && off < |image| && Gathered(table, base, image, o, off)
    ensures var i := FindOffset(table, off);
            Gathered(table, base, image,
                     if Differs(base, image, off) && i < |table| then o[table[i].name := image[off]] else o, off + 1)
  {
    hide ValidTable, FindOffset, FindName;
    var i := FindOffset(table, off);
    if i < |table| {
      forall j | 0 <= j < |table| && j != i
        ensures table[j].name != table[i].name && table[j].offset != off
      {
        DistinctNames(table, i, j);
        FoundOnce(table, j);
      }
      FoundOnce(table, i);
    }
  }

  method ImageOverrides(table: seq<Param>, base: seq<byte>, image: seq<byte>)
    returns (o: Overrides, unnamed: seq<nat>)
    requires ValidTable(table) && |base| == EEPROM_SIZE
    ensures o == Named(table, base, image) && unnamed == Unnamed(table, base, image)
  {
    hide Gathered, ValidTable, FindOffset;
    var size := if |image| < EEPROM_SIZE then |image| else EEPROM_SIZE;
    o, unnamed := map[], [];
    assert Gathered(table, base, image, o, 0) by { GatheredNone(table, base, image); }
    for off := 0 to size
      invariant Gathered(table, base, image, o, off)
      invariant unnamed == UnnamedUpTo(table, base, image, off)
    {
      GatherOne(table, base, image, o, off);
      HasNameFound(table, off);
      if image[off] == base[off] {
        continue;
      }
      var i := FindOffset(table, off);
      if i < |table| {
        o := o[table[i].name := image[off]];
      } else {
        unnamed := unnamed + [off];
      }
    }
    GatheredAll(table, base, image, o, size);
    if size < EEPROM_SIZE {
      UnnamedBeyond(table, base, image, EEPROM_SIZE, size);
    }
  }

  lemma GatheredNone(table: seq<Param>, base: seq<byte>, image: seq<byte>)
    ensures Gathered(table, base, image, map[], 0)
  {}

  /** An image in the making: the names not in rest are written. */
  predicate Written(table: seq<Param>, base: seq<byte>, o: Overrides, rest: set<string>, img: seq<byte>) {
    && |img| == |base|
    && forall off :: 0 <= off < |img| ==>
         var i := FindOffset(table, off);
         img[off] == if i < |table| && table[i].name in o && table[i].name !in rest then o[table[i].name] else base[off]
  }

  lemma WriteOne(table: seq<Param>, base: seq<byte>, o: Overrides, rest: set<string>, img: seq<byte>, name: string)
    requires ValidTable(table) && |base| == EEPROM_SIZE && Written(table, base, o, rest, img)
    requires name in o && Acceptable(table, name, o[name])
    ensures var off := table[FindName(table, name)].offset;
            off < |img| && Written(table, base, o, rest - {name}, img[off := AsByte(o[name])])
  {
    var i := FindName(table, name);
    var off := table[i].offset;
    FoundOnce(table, i);
    forall other | 0 <= other < |img| && other != off
      ensures var j := FindOffset(table, other); j < |table| ==> table[j].name != name
    {
      var j := FindOffset(table, other);
      if j < |table| {
        assert i != j;
      }
    }
  }

  method BuildImage(table: seq<Param>, base: seq<byte>, o: Overrides) returns (r: Option<seq<byte>>)
    requires ValidTable(table) && |base| == EEPROM_SIZE
    ensures r == Build(table, base, o)
  {
    hide Written, ValidTable, FindName, FindOffset;
    var img := new byte[|base|](i requires 0 <= i < |base| => base[i]);
    var rest := o.Keys;
    assert img[..] == base;
    WrittenNone(table, base, o);
    while rest != {}
      invariant rest <= o.Keys && Written(table, base, o, rest, img[..])
      invariant forall name :: name in o && name !in rest ==> Acceptable(table, name, o[name])
      decreases |rest|
    {
      var name :| name in rest;
      var i := FindName(table, name);
      if i == |table| || !(0 <= o[name] <= 255) {
        assert !Acceptable(table, name, o[name]);
        return None;
      }
      WriteOne(table, base, o, rest, img[..], name);
      ghost var before := img[..];
      var value: byte := o[name];
      img[table[i].offset] := value;
      assert img[..] == before[table[i].offset := value];
      rest := rest - {name};
    }
    WrittenAll(table, base, o, img[..]);
    r := Some(img[..]);
  }

  lemma WrittenNone(table: seq<Param>, base: seq<byte>, o: Overrides)
    ensures Written(table, base, o, o.Keys, base)
  {}

  lemma WrittenAll(table: seq<Param>, base: seq<byte>, o: Overrides, img: seq<byte>)
    requires Written(table, base, o, {}, img) && forall name :: name in o ==> Acceptable(table, name, o[name])
    ensures Build(table, base, o) == Some(img)
  {
    var built := Build(table, base, o).value;
    assert forall off :: 0 <= off < |base| ==> built[off] == AsByte(BuiltByte(table, base, o, off));
    assert built == img;
  }

  method ParseFile(table: seq<Param>, text: string) returns (p: Parsed)
    ensures p == Parse(table, text)
  {
    hide LineFields, FindName, ParseNumber, FileLines, Upper;
    var lines := FileLines(text);
    var o: Overrides := map[];
    for n := 0 to |lines|
      invariant ParseUpTo(table, lines, n) == Settings(o)
    {
      var f := LineFields(lines[n]);
      if f == [] {
        continue;
      }
      if |f| != 2 {
        FailsForGood(table, lines, n + 1);
        return Malformed(n + 1);
      }
      if FindName(table, Upper(f[0])) == |table| {
        FailsForGood(table, lines, n + 1);
        return Unknown(n + 1);
      }
      var v := ParseNumber(f[1]);
      if v.None? {
        FailsForGood(table, lines, n + 1);
        return Malformed(n + 1);
      }
      o := o[Upper(f[0]) := v.value];
    }
    p := Settings(o);
  }

  lemma {:induction false} FailsForGood(table: seq<Param>, lines: seq<string>, n: nat)
    requires n <= |lines| && !ParseUpTo(table, lines, n).Settings?
    ensures ParseUpTo(table, lines, |lines|) == ParseUpTo(table, lines, n)
    decreases |lines| - n
  {
    hide ParseLine;
    if n < |lines| {
      FailsForGood(table, lines, n + 1);
    }
  }

  method FormatFile(table: seq<Param>, w: Wording, base: seq<byte>, image: seq<byte>, header: string)
    returns (text: string)
    requires ValidTable(table) && |base| == EEPROM_SIZE
    ensures text == Format(table, w, base, image, header)
  {
    hide Entry, Stripped, ValidTable, NamedUpTo, Unnamed, HeaderLines, JoinLines;
    var o, unnamed := ImageOverrides(table, base, image);
    var head := HeaderLines(header);
    var lines := [];
    for k := 0 to |head|
      invariant HeaderComments(head) == lines + HeaderComments(head[k..])
    {
      assert head[k..][1..] == head[k + 1..];
      lines := lines + [Stripped("# " + head[k])];
    }
    assert lines + HeaderComments([]) == lines;
    lines := lines + w.preamble + Notes(w, unnamed);
    ghost var top := lines;
    for k := 0 to |table|
      invariant lines == top + EntriesUpTo(table, w, base, image, k)
    {
      NamedExactly(table, base, image, |table|, k);
      if table[k].name in o {
        lines := lines + [Entry(w, table[k].name, image[table[k].offset])];
      }
    }
    text := JoinLines(lines);
  }

  // ------------------------------------------------------------------ motor Kv

  /** The nearest whole number, an even one when two are as near. */
  function RoundHalfEven(x: real): int {
    var f := x.Floor;
    var left := x - f as real;
    if left < 0.5 || (left == 0.5 && f % 2 == 0) then f else f + 1
  }

  function KvToByte(kv: real): byte {
    var b := RoundHalfEven((kv - 20.0) / 40.0);
    if b < 0 then 0 else if b > 255 then 255 else b
  }

  function ByteToKv(b: byte): nat {
    b * 40 + 20
  }

  lemma KvByteRoundTrip(b: byte)
    ensures KvToByte(ByteToKv(b) as real) == b
  {
    assert (ByteToKv(b) as real - 20.0) / 40.0 == b as real;
  }

  /** A Kv comes back within twenty exactly from 0 to 10240. */
  lemma KvWithinTwenty(kv: real)
    ensures -20.0 <= ByteToKv(KvToByte(kv)) as real - kv <= 20.0 <==> 0.0 <= kv <= 10240.0
  {
    var x := (kv - 20.0) / 40.0;
    assert kv == 40.0 * x + 20.0;
  }

  /** Half way between two bytes a Kv is stored as the even one; between them as the nearer. */
  lemma KvNearest(kv: real)
    requires 20.0 <= kv <= 10220.0
    ensures var b := KvToByte(kv);
            && (kv == 40.0 * b as real ==> b % 2 == 0)
            && (kv == 40.0 * b as real + 40.0 ==> b % 2 == 0)
  {
    var x := (kv - 20.0) / 40.0;
    assert kv == 40.0 * x + 20.0;
  }

  /** The columns of an entry: a short name first, its byte right-aligned to end in column 28. */
  lemma EntryColumns(w: Wording, name: string, v: byte)
    requires |name| <= 24
    ensures var line, digits := Entry(w, name, v), Decimal(v);
            && 1 <= |digits| <= 3 && |line| >= 28
            && line[..|name|] == name && line[28 - |digits|..28] == digits
            && (forall k :: |name| <= k < 28 - |digits| ==> line[k] == ' ')
            && line[28..] == if w.show(name, v) == "" then "" else "   # " + w.show(name, v)
  {
    hide Decimal;
    ByteDigits(v);
    SpacesAre(24 - |name|);
    SpacesAre(3 - |Decimal(v)|);
  }

  lemma ByteDigits(v: byte)
    ensures 1 <= |Decimal(v)| <= 3
  {
    hide Decimal;
    DecimalStep(v);
    DecimalStep(v / 10);
    DecimalStep(v / 10 / 10);
  }

  lemma DecimalStep(n: nat)
    ensures |Decimal(n)| == if n < 10 then 1 else |Decimal(n / 10)| + 1
  {
  }

  lemma {:induction false} SpacesAre(n: int)
    ensures |Spaces(n)| == (if n < 0 then 0 else n)
    ensures forall k :: 0 <= k < |Spaces(n)| ==> Spaces(n)[k] == ' '
    decreases n
  {
    if n > 0 {
      SpacesAre(n - 1);
    }
  }

  // ------------------------------------------------------ what a file may say

  /** The same letters, whatever their case, read one by one. */
  predicate SameName(typed: string, name: string) {
    |typed| == |name| && forall k :: 0 <= k < |typed| ==>
      if 'a' <= typed[k] <= 'z' then name[k] as int == typed[k] as int - 32 else name[k] == typed[k]
  }

  lemma {:induction false} UpperReads(s: string, name: string)
    ensures Upper(s) == name <==> SameName(s, name)
    decreases |s|
  {
    if s != "" && name != "" {
      UpperReads(s[1..], name[1..]);
      var up := if 'a' <= s[0] <= 'z' then s[0] - 32 as char else s[0];
      assert Upper(s) == [up] + Upper(s[1..]);
      assert Upper(s) == name <==> up == name[0] && Upper(s[1..]) == name[1..] by {
        Consed(up, Upper(s[1..]), name);
      }
      assert SameName(s, name) <==> up == name[0] && SameName(s[1..], name[1..]) by {
        SameNameStep(s, name);
      }
    }
  }

  lemma Consed(c: char, tail: string, name: string)
    requires name != ""
    ensures [c] + tail == name <==> c == name[0] && tail == name[1..]
  {
    assert name == [name[0]] + name[1..];
    if [c] + tail == name {
      assert name[1..] == tail;
    }
  }

  lemma SameNameStep(s: string, name: string)
    requires s != "" && name != ""
    ensures var up := if 'a' <= s[0] <= 'z' then s[0] - 32 as char else s[0];
            SameName(s, name) <==> up == name[0] && SameName(s[1..], name[1..])
  {
    var rest, tail := s[1..], name[1..];
    assert forall k :: 0 <= k < |rest| ==> rest[k] == s[k + 1];
    assert forall k :: 0 <= k < |tail| ==> tail[k] == name[k + 1];
    if SameName(rest, tail) && |s| == |name| {
      forall k | 0 < k < |s|
        ensures if 'a' <= s[k] <= 'z' then name[k] as int == s[k] as int - 32 else name[k] == s[k]
      {
        assert rest[k - 1] == s[k] && tail[k - 1] == name[k];
      }
    }
  }

  /**
   What one line does: nothing if it is blank or all comment; else it sets a parameter if it
   is exactly a known name, in any case, and a number; else it ends the file with an error,
   an unknown name if it had two words and malformed otherwise.
   */
  lemma LineExactly(table: seq<Param>, o: Overrides, line: string, number: nat)
    ensures var f := LineFields(line);
            var p := ParseLine(table, o, line, number);
            var known := |f| == 2 && exists i :: 0 <= i < |table| && SameName(f[0], table[i].name);
            && (p == Settings(o) <== f == [])
            && (f != [] ==>
                  && (p.Unknown? <==> |f| == 2 && !known)
                  && (p.Malformed? <==> |f| != 2 || (known && ParseNumber(f[1]).None?))
                  && (p.Settings? ==>
                        exists i :: 0 <= i < |table| && SameName(f[0], table[i].name) &&
                          p.overrides == o[table[i].name := ParseNumber(f[1]).value]))
            && (!p.Settings? ==> p.line == number)
  {
    hide LineFields, ParseNumber, Upper, SameName;
    var f := LineFields(line);
    if |f| == 2 {
      forall i | 0 <= i < |table| ensures Upper(f[0]) == table[i].name <==> SameName(f[0], table[i].name) {
        UpperReads(f[0], table[i].name);
      }
    }
  }

  predicate Separator(s: string) {
    s != "" && forall i :: 0 <= i < |s| ==> IsSpace(s[i]) || s[i] == ','
  }

  lemma {:induction false} CommasOutAppend(a: string, b: string)
    ensures CommasOut(a + b) == CommasOut(a) + CommasOut(b)
    decreases |a|
  {
    if a == "" {
      assert a + b == b;
    } else {
      assert (a + b)[1..] == a[1..] + b;
      CommasOutAppend(a[1..], b);
    }
  }

  lemma {:induction false} SeparatorBlank(s: string)
    requires forall i :: 0 <= i < |s| ==> IsSpace(s[i]) || s[i] == ','
    ensures Blank(CommasOut(s)) && |CommasOut(s)| == |s|
    decreases |s|
  {
    if s != "" {
      SeparatorBlank(s[1..]);
    }
  }

  /** Spaces and commas in any mixture separate a name from its value. */
  lemma CommasSeparate(name: string, gap: string, value: string, comment: string)
    requires IsWord(name) && IsWord(value) && Separator(gap)
    requires comment == "" || comment[0] == '#'
    ensures LineFields(name + gap + value + comment) == [name, value]
  {
    hide Fields, IsSpace, CommasOut, BeforeHash;
    SpaceIsNoHash();
    HashFree(name + gap + value, comment);
    CommasGone(name, gap, value);
    SeparatorBlank(gap);
    WordsApart(name, CommasOut(gap), value);
  }

  lemma CommasGone(name: string, gap: string, value: string)
    requires IsWord(name) && IsWord(value)
    ensures CommasOut(name + gap + value) == name + CommasOut(gap) + value
  {
    hide IsSpace, CommasOut, BeforeHash;
    CommasOutAppend(name + gap, value);
    CommasOutAppend(name, gap);
    CleanStays(name, "");
    CleanStays(value, "");
    assert name + "" == name && value + "" == value;
  }

  lemma WordsApart(name: string, blank: string, value: string)
    requires IsWord(name) && IsWord(value) && Blank(blank) && blank != ""
    ensures Fields(name + blank + value) == [name, value]
  {
    hide Fields, IsSpace;
    assert name + blank + value == name + (blank + value);
    FieldsWord(name, blank + value);
    FieldsBlank(blank, value);
    FieldsWord(value, "");
    assert value + "" == value;
    NoFields();
  }

  lemma SpaceIsNoHash()
    ensures !IsSpace('#')
  {}

  lemma {:induction false} HashFree(s: string, comment: string)
    requires forall i :: 0 <= i < |s| ==> s[i] != '#'
    requires comment == "" || comment[0] == '#'
    ensures BeforeHash(s + comment) == s
    decreases |s|
  {
    if s == "" {
      assert s + comment == comment;
    } else {
      assert (s + comment)[1..] == s[1..] + comment && s == [s[0]] + s[1..];
      HashFree(s[1..], comment);
    }
  }

  /** Exactly which overrides make an image: known names with values from 0 to 255; and the image they make. */
  lemma BuildExactly(table: seq<Param>, base: seq<byte>, o: Overrides)
    requires ValidTable(table) && |base| == EEPROM_SIZE
    ensures forall i :: 0 <= i < |table| ==> table[i].offset < 192
    ensures Build(table, base, o).Some? <==>
            forall name :: name in o ==> 0 <= o[name] <= 255 && exists i :: 0 <= i < |table| && table[i].name == name
    ensures Build(table, base, o).Some? ==>
              && var image := Build(table, base, o).value;
              && |image| == 192
              && (forall i :: 0 <= i < |table| && table[i].name in o ==> image[table[i].offset] == o[table[i].name])
              && (forall off :: 0 <= off < 192 && (forall i :: 0 <= i < |table| ==> table[i].offset == off ==> table[i].name !in o)
                    ==> image[off] == base[off])
  {
    hide ValidTable, FindName, FindOffset;
    forall name ensures FindName(table, name) < |table| <==> exists i :: 0 <= i < |table| && table[i].name == name {
      NameFound(table, name);
    }
    forall i | 0 <= i < |table| ensures table[i].offset < EEPROM_SIZE {
      TableInside(table, i);
    }
    if Build(table, base, o).Some? {
      var image := Build(table, base, o).value;
      forall i | 0 <= i < |table| && table[i].name in o ensures image[table[i].offset] == o[table[i].name] {
        FoundOnce(table, i);
      }
      forall off | 0 <= off < 192 && (forall i :: 0 <= i < |table| ==> table[i].offset == off ==> table[i].name !in o)
        ensures image[off] == base[off]
      {
        assert FindOffset(table, off) < |table| ==> table[FindOffset(table, off)].offset == off;
      }
    }
  }

  lemma NameFound(table: seq<Param>, name: string)
    ensures FindName(table, name) < |table| <==> exists i :: 0 <= i < |table| && table[i].name == name
  {
    var i := FindName(table, name);
    assert i < |table| ==> table[i].name == name;
  }

  lemma TableInside(table: seq<Param>, i: nat)
    requires ValidTable(table) && i < |table|
    ensures table[i].offset < EEPROM_SIZE
  {}

  /** The first printed lines are the header's, each behind "# ". */
  lemma {:induction false} HeaderPrinted(lines: seq<string>, k: nat)
    requires k < |lines|
    ensures |HeaderComments(lines)| == |lines| && HeaderComments(lines)[k] == Stripped("# " + lines[k])
  {
    hide Stripped;
    HeaderLength(lines);
    if k > 0 {
      HeaderPrinted(lines[1..], k - 1);
    }
  }

  lemma {:induction false} HeaderLength(lines: seq<string>)
    ensures |HeaderComments(lines)| == |lines|
  {
    if lines != [] {
      HeaderLength(lines[1..]);
    }
  }

  /** Stripping takes the spaces off the end and nothing else. */
  lemma {:induction false} StrippedIs(s: string)
    ensures var r := Stripped(s);
            && r <= s && (r != "" ==> !IsSpace(r[|r| - 1])) && Blank(s[|r|..])
    decreases |s|
  {
    hide IsSpace;
    if s != "" && IsSpace(s[|s| - 1]) {
      StrippedIs(s[..|s| - 1]);
    }
  }

  /** The bytes without a name are noted by their offsets, in decimal, between commas. */
  lemma {:induction false} ListedReads(offsets: seq<nat>)
    requires offsets != []
    ensures Fields(CommasOut(Listed(offsets))) == seq(|offsets|, k requires 0 <= k < |offsets| => Decimal(offsets[k]))
    decreases |offsets|
  {
    hide Fields, IsSpace, Decimal, CommasOut;
    var first := Decimal(offsets[0]);
    DecimalIsWord(offsets[0]);
    if |offsets| == 1 {
      CommasGoneFrom(first, "");
      CommaBlank();
      FieldsWord(first, "");
      assert first + "" == first;
      NoFields();
    } else {
      ListedOne(first, Listed(offsets[1..]));
      ListedReads(offsets[1..]);
    }
  }

  lemma CommasGoneFrom(word: string, rest: string)
    requires IsWord(word)
    ensures CommasOut(word + rest) == word + CommasOut(rest)
  {
    hide IsSpace, CommasOut, BeforeHash;
    CommasOutAppend(word, rest);
    CleanStays(word, "");
    assert word + "" == word;
  }

  lemma ListedOne(first: string, rest: string)
    requires IsWord(first)
    ensures Fields(CommasOut(first + ", " + rest)) == [first] + Fields(CommasOut(rest))
  {
    hide Fields, IsSpace, CommasOut;
    assert first + ", " + rest == first + (", " + rest);
    CommasGoneFrom(first, ", " + rest);
    CommasOutAppend(", ", rest);
    CommaBlank();
    FieldsWord(first, "  " + CommasOut(rest));
    FieldsBlank("  ", CommasOut(rest));
  }

  lemma CommaBlank()
    ensures CommasOut(", ") == "  " && Blank("  ") && CommasOut("") == ""
  {
    assert ", "[1..] == " " && " "[1..] == "";
  }
}
