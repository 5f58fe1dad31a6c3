/** The hex/ASCII view of a packet, and a reader of its text that recovers the bytes. */
module HexDump {
  import opened Wrappers
  import opened Bytes
  import opened Numerals

  const WIDTH := 16

  /** Characters after the offset on every line: gap, 16 cells, gap, 16 characters, newline. */
  const TAIL_LEN := 3 + 48 + 5 + 16 + 1

  // ---------- one line ----------

  lemma ByteText(c: byte)
    ensures HexPadded(c, 2) == [HexDigit(c as nat / 16), HexDigit(c as nat % 16)]
  {
    if c < 16 {
      assert Hex(c) == [HexDigit(c)];
    } else {
      assert Hex(c as nat / 16) == [HexDigit(c as nat / 16)];
    }
  }

  /** A byte as two hexadecimal digits and a blank. */
  function ByteCell(c: byte): (s: string)
    ensures |s| == 3
  {
    ByteText(c);
    HexPadded(c, 2) + " "
  }

  function CellAt(chunk: seq<byte>, j: nat): (s: string)
    ensures |s| == 3
  {
    if j < |chunk| then ByteCell(chunk[j]) else "   "
  }

  function AsciiAt(chunk: seq<byte>, j: nat): char {
    if j < |chunk| then
      var c: int := chunk[j];
      if 32 <= c <= 126 then c as char else '.'
    else ' '
  }

  /** The first n cells of a line. */
  function HexCells(chunk: seq<byte>, n: nat): (s: string)
    ensures |s| == 3 * n
  {
    if n == 0 then "" else HexCells(chunk, n - 1) + CellAt(chunk, n - 1)
  }

  function AsciiCells(chunk: seq<byte>, n: nat): (s: string)
    ensures |s| == n
  {
    seq(n, j requires 0 <= j < n => AsciiAt(chunk, j))
  }

  function LineTail(chunk: seq<byte>): string {
    "   " + (HexCells(chunk, WIDTH) + ("     " + (AsciiCells(chunk, WIDTH) + "\n")))
  }

  function Line(offset: nat, chunk: seq<byte>): string {
    HexPadded(offset, 4) + LineTail(chunk)
  }

  /** The bytes shown on the line at offset i. */
  function ChunkAt(data: seq<byte>, i: nat): (c: seq<byte>)
    requires i < |data|
    ensures 1 <= |c| <= WIDTH
  {
    if i + WIDTH < |data| then data[i..i + WIDTH] else data[i..]
  }

  function DumpFrom(data: seq<byte>, i: nat): string
    decreases |data| - i
  {
    if i >= |data| then "" else Line(i, ChunkAt(data, i)) + DumpFrom(data, i + WIDTH)
  }

  /** `QString::leftJustified`. */
  function LeftJustified(s: string, width: nat): string {
    if |s| >= width then s else s + seq(width - |s|, _ => ' ')
  }

  // ---------- the printing loops ----------

  lemma NoCells(chunk: seq<byte>)
    ensures HexCells(chunk, 0) == "" && AsciiCells(chunk, 0) == ""
  {
  }

  /** One more column: a byte of the chunk, or blanks behind its end. */
  lemma NextCell(chunk: seq<byte>, j: nat)
    ensures HexCells(chunk, j + 1) == HexCells(chunk, j) + if j < |chunk| then ByteCell(chunk[j]) else "   "
    ensures AsciiCells(chunk, j + 1) == AsciiCells(chunk, j) +
      if j >= |chunk| then " " else if 32 <= chunk[j] <= 126 then [chunk[j] as char] else "."
  {
    hide ByteCell;
    assert AsciiCells(chunk, j + 1) == AsciiCells(chunk, j) + [AsciiAt(chunk, j)];
  }

  lemma Grouped(offset: string, hex: string, ascii: string)
    ensures offset + "   " + (hex + "     " + ascii + "\n") == offset + ("   " + (hex + ("     " + (ascii + "\n"))))
  {
    assert hex + "     " + ascii + "\n" == hex + ("     " + (ascii + "\n"));
  }

  /** The dump from an offset inside the data begins with its line. */
  lemma NextLine(data: seq<byte>, i: nat, text: string)
    requires i < |data|
    ensures text + DumpFrom(data, i) == text + Line(i, ChunkAt(data, i)) + DumpFrom(data, i + WIDTH)
  {
    hide Line, ChunkAt;
  }

  lemma NoLine(data: seq<byte>, i: nat)
    requires i >= |data|
    ensures DumpFrom(data, i) == ""
  {
  }

  /** What a line can show of len bytes: those that are there. */
  function Limit(data: seq<byte>, len: nat): (n: nat)
    ensures n <= |data| && n <= len
  {
    if len <= |data| then len else |data|
  }

  /** One line; None when one of its bytes lies past the data. */
  method FormatLine(data: seq<byte>, len: nat, i: nat) returns (line: Option<string>)
    requires i < len
    ensures line.Some? <==> len <= |data| || i + WIDTH <= |data|
    ensures line.Some? ==> line.value == Line(i, ChunkAt(data[..Limit(data, len)], i))
  {
    hide HexPadded, ByteCell, ReadU8, HexCells, AsciiCells, CellAt, AsciiAt;
    ghost var limit := Limit(data, len);
    ghost var chunk := if i < limit then ChunkAt(data[..limit], i) else [];
    var text := HexPadded(i, 4) + "   ";
    var hexPart, asciiPart := "", "";
    NoCells(chunk);
    var j := 0;
    while j < WIDTH
      invariant 0 <= j <= WIDTH
      invariant j == 0 || len <= |data| || i + j <= |data|
      invariant hexPart == HexCells(chunk, j)
      invariant asciiPart == AsciiCells(chunk, j)
    {
      NextCell(chunk, j);
      if i + j < len {
        ByteInside(data, i + j);
        var c :- ReadU8(data, i + j);
        assert j < |chunk| && c == chunk[j];
        hexPart := hexPart + ByteCell(c);
        if c >= 32 && c <= 126 {
          asciiPart := asciiPart + [c as char];
        } else {
          asciiPart := asciiPart + ".";
        }
      } else {
        assert j >= |chunk|;
        hexPart := hexPart + "   ";
        asciiPart := asciiPart + " ";
      }
      j := j + 1;
    }
    hexPart := LeftJustified(hexPart, 48);
    text := text + (hexPart + "     " + asciiPart + "\n");
    Grouped(HexPadded(i, 4), hexPart, asciiPart);
    return Some(text);
  }

  /** The text for len bytes of a stored packet: None when they reach past what is stored. */
  function HexText(data: seq<byte>, len: nat): Option<string> {
    if data == [] then Some("-") else
      var shown :- ReadSpan(data, 0, len);
      Some(DumpFrom(shown, 0))
  }

  lemma HexTextInside(data: seq<byte>, len: nat)
    ensures HexText(data, len)
         == if data == [] then Some("-") else if len <= |data| then Some(DumpFrom(data[..len], 0)) else None
  {
    hide DumpFrom;
    ReadSpanInside(data, 0, len);
  }

  /** The body of `start_hax`, for the stored bytes of one packet and its captured length. */
  method FormatDump(data: seq<byte>, len: nat) returns (out: Option<string>)
    ensures out == HexText(data, len)
  {
    HexTextInside(data, len);
    if data == [] {
      return Some("-");
    }
    hide HexText, Line, ChunkAt, DumpFrom;
    ghost var shown := data[..Limit(data, len)];
    var text := "";
    var i := 0;
    while i < len
      invariant len <= |data| || i <= |data|
      invariant text + DumpFrom(shown, i) == DumpFrom(shown, 0)
    {
      var line :- FormatLine(data, len, i);
      NextLine(shown, i, text);
      text := text + line;
      i := i + WIDTH;
    }
    NoLine(shown, i);
    assert text + "" == text;
    return Some(text);
  }

  // ---------- layout ----------

  lemma {:induction false} CellPosition(chunk: seq<byte>, n: nat, j: nat)
    requires j < n
    ensures HexCells(chunk, n)[3 * j..3 * j + 3] == CellAt(chunk, j)
  {
    hide CellAt;
    var front := HexCells(chunk, n - 1);
    assert HexCells(chunk, n) == front + CellAt(chunk, n - 1);
    if j < n - 1 {
      CellPosition(chunk, n - 1, j);
      assert HexCells(chunk, n)[3 * j..3 * j + 3] == front[3 * j..3 * j + 3];
    } else {
      assert HexCells(chunk, n)[3 * j..3 * j + 3] == CellAt(chunk, j);
    }
  }

  lemma TailColumns(cells: string, ascii: string, j: nat)
    requires |cells| == 48 && |ascii| == WIDTH && j < WIDTH
    ensures var tail := "   " + (cells + ("     " + (ascii + "\n")));
      && |tail| == TAIL_LEN && tail[3 + 3 * j..6 + 3 * j] == cells[3 * j..3 * j + 3]
      && tail[56 + j] == ascii[j] && tail[TAIL_LEN - 1] == '\n'
  {
  }

  /** Full and padded lines have the same columns after the offset. */
  lemma Columns(chunk: seq<byte>, j: nat)
    requires j < WIDTH
    ensures |LineTail(chunk)| == TAIL_LEN
    ensures LineTail(chunk)[3 + 3 * j..6 + 3 * j] == CellAt(chunk, j)
    ensures LineTail(chunk)[56 + j] == AsciiAt(chunk, j)
    ensures LineTail(chunk)[TAIL_LEN - 1] == '\n'
  {
    CellPosition(chunk, WIDTH, j);
    var ascii := AsciiCells(chunk, WIDTH);
    assert ascii[j] == AsciiAt(chunk, j);
    hide HexCells, AsciiCells, CellAt, AsciiAt;
    TailColumns(HexCells(chunk, WIDTH), ascii, j);
  }

  // ---------- reading a dump back ----------

  datatype DumpLine = DumpLine(offset: nat, bytes: seq<byte>)

  function HexSpan(s: string): (k: nat)
    ensures k <= |s| && AllHex(s[..k])
    ensures k == |s| || HexValue(s[k]).None?
  {
    if s == [] || HexValue(s[0]).None? then 0 else
      var k := HexSpan(s[1..]);
      assert s[..k + 1] == [s[0]] + s[1..][..k];
      k + 1
  }

  lemma HexSpanStops(p: string, rest: string)
    requires AllHex(p)
    requires rest == "" || HexValue(rest[0]).None?
    ensures HexSpan(p + rest) == |p|
  {
    var s := p + rest;
    var k := HexSpan(s);
    assert forall i | 0 <= i < |p| :: s[i] == p[i];
    assert forall i | 0 <= i < k :: HexValue(s[..k][i]).Some?;
    assert rest != [] ==> s[|p|] == rest[0];
  }

  function ReadByte(high: char, low: char): Option<byte> {
    var hi :- HexValue(high);
    var lo :- HexValue(low);
    var c: int := 16 * hi + lo;
    if 0 <= c < 256 then Some(c) else None
  }

  predicate Blank(t: string) {
    forall i | 0 <= i < |t| :: t[i] == ' '
  }

  /** Reads cells of two digits and a blank, up to the padding, which is all blank. */
  function ReadCells(t: string): Option<seq<byte>> {
    if Blank(t) then Some([])
    else if |t| < 3 || t[2] != ' ' then None
    else
      var c :- ReadByte(t[0], t[1]);
      var rest :- ReadCells(t[3..]);
      Some([c] + rest)
  }

  /** Column j of the text part: the byte itself when it is printable, a dot when not, a blank behind the end. */
  predicate ShowsByte(c: char, bytes: seq<byte>, j: nat) {
    if j >= |bytes| then c == ' '
    else if bytes[j] < 32 || bytes[j] > 126 then c == '.'
    else c as int == bytes[j] as int
  }

  /** Reads what follows the offset: three blanks, sixteen cells, five blanks, sixteen characters and a newline. */
  function ReadTail(t: string): Option<seq<byte>>
    requires |t| == 73
  {
    var bytes :- ReadCells(t[3..51]);
    var ascii := t[56..72];
    if && t[..3] == "   " && t[51..56] == "     " && t[72] == '\n'
       && forall j | 0 <= j < 16 :: ShowsByte(ascii[j], bytes, j)
    then Some(bytes)
    else None
  }

  /** The offset has four digits, or more without a leading zero. */
  function ReadLine(s: string): (r: Option<(DumpLine, string)>)
    ensures r.Some? ==> |r.value.1| < |s|
  {
    var k := HexSpan(s);
    var t := s[k..];
    if k < 4 || (k > 4 && s[0] == '0') || |t| < 73 then None else
      var bytes :- ReadTail(t[..73]);
      Some((DumpLine(HexNumber(s[..k]), bytes), t[73..]))
  }

  function ReadDump(s: string): Option<seq<DumpLine>>
    decreases |s|
  {
    if s == "" then Some([]) else
      var (line, rest) :- ReadLine(s);
      var lines :- ReadDump(rest);
      Some([line] + lines)
  }

  function Flatten(lines: seq<DumpLine>): seq<byte> {
    if lines == [] then [] else lines[0].bytes + Flatten(lines[1..])
  }

  /** The lines a dump of data shows from offset i on. */
  function LinesFrom(data: seq<byte>, i: nat): seq<DumpLine>
    decreases |data| - i
  {
    if i >= |data| then [] else [DumpLine(i, ChunkAt(data, i))] + LinesFrom(data, i + WIDTH)
  }

  lemma ReadByteOk(c: byte)
    ensures ByteCell(c)[0] != ' ' && ByteCell(c)[2] == ' '
    ensures ReadByte(ByteCell(c)[0], ByteCell(c)[1]) == Some(c)
  {
    ByteText(c);
    var hi, lo: nat := c as nat / 16, c as nat % 16;
    assert ByteCell(c)[0] == HexDigit(hi) && ByteCell(c)[1] == HexDigit(lo);
    assert 16 * hi + lo == c;
    assert HexValue(' ').None?;
  }

  lemma ReadCellsStep(t: string, c: byte, rest: seq<byte>)
    requires |t| >= 3 && t[0] != ' ' && t[2] == ' ' && ReadByte(t[0], t[1]) == Some(c)
    requires ReadCells(t[3..]) == Some(rest)
    ensures ReadCells(t) == Some([c] + rest)
  {
  }

  lemma Suffix(cells: string, cell: string, k: nat)
    requires |cell| == 3 && k + 3 <= |cells| && cells[k..k + 3] == cell
    ensures cells[k..][0] == cell[0] && cells[k..][1] == cell[1] && cells[k..][2] == cell[2]
    ensures cells[k..][3..] == cells[k + 3..]
  {
    assert cells[k..k + 3][0] == cells[k] && cells[k..k + 3][1] == cells[k + 1] && cells[k..k + 3][2] == cells[k + 2];
  }

  lemma CellRead(chunk: seq<byte>, n: nat, j: nat)
    requires j < n
    ensures var t := HexCells(chunk, n)[3 * j..];
      && t[3..] == HexCells(chunk, n)[3 * (j + 1)..]
      && if j < |chunk| then t[0] != ' ' && t[2] == ' ' && ReadByte(t[0], t[1]) == Some(chunk[j])
         else t[0] == t[1] == t[2] == ' '
  {
    hide HexCells, ReadByte, ByteCell;
    CellPosition(chunk, n, j);
    Suffix(HexCells(chunk, n), CellAt(chunk, j), 3 * j);
    if j < |chunk| {
      ReadByteOk(chunk[j]);
    }
  }

  lemma BlankStep(t: string)
    requires |t| >= 3 && t[0] == t[1] == t[2] == ' ' && Blank(t[3..])
    ensures Blank(t)
  {
    forall i | 0 <= i < |t|
      ensures t[i] == ' '
    {
      if i >= 3 {
        assert t[3..][i - 3] == t[i];
      }
    }
  }

  lemma NothingIsBlank()
    ensures Blank("")
  {
  }

  /** Behind the end of the chunk the cells are blank. */
  lemma {:induction false} PaddingIsBlank(chunk: seq<byte>, n: nat, j: nat)
    requires |chunk| <= j <= n
    ensures Blank(HexCells(chunk, n)[3 * j..])
    decreases n - j
  {
    hide HexCells, Blank;
    if j == n {
      assert HexCells(chunk, n)[3 * j..] == "";
      NothingIsBlank();
    } else {
      CellRead(chunk, n, j);
      PaddingIsBlank(chunk, n, j + 1);
      BlankStep(HexCells(chunk, n)[3 * j..]);
    }
  }

  lemma {:induction false} ReadCellsOk(chunk: seq<byte>, n: nat, j: nat)
    requires j <= |chunk| <= n
    ensures ReadCells(HexCells(chunk, n)[3 * j..]) == Some(chunk[j..])
    decreases |chunk| - j
  {
    hide HexCells, ReadByte, Blank;
    if j == |chunk| {
      PaddingIsBlank(chunk, n, j);
      assert chunk[j..] == [];
    } else {
      hide ReadCells;
      CellRead(chunk, n, j);
      ReadCellsOk(chunk, n, j + 1);
      ReadCellsStep(HexCells(chunk, n)[3 * j..], chunk[j], chunk[j + 1..]);
      assert chunk[j..] == [chunk[j]] + chunk[j + 1..];
    }
  }

  /** A text that splits into offset digits, a well-formed tail and a rest is read as such. */
  lemma ReadLineParts(s: string, p: string, t: string, bytes: seq<byte>, rest: string)
    requires HexSpan(s) == |p| >= 4 && s[..|p|] == p && AllHex(p) && (|p| > 4 ==> p[0] != '0')
    requires s[|p|..] == t && |t| >= 73
    requires ReadTail(t[..73]) == Some(bytes) && t[73..] == rest
    ensures ReadLine(s) == Some((DumpLine(HexNumber(p), bytes), rest))
  {
    hide ReadTail, HexSpan;
    assert s[0] == p[0];
  }

  lemma AsciiShown(chunk: seq<byte>, j: nat)
    ensures ShowsByte(AsciiAt(chunk, j), chunk, j)
  {
  }

  lemma TailParts(cells: string, ascii: string)
    requires |cells| == 48 && |ascii| == WIDTH
    ensures var t := "   " + (cells + ("     " + (ascii + "\n")));
      && |t| == 73 && t[..3] == "   " && t[3..51] == cells && t[51..56] == "     " && t[56..72] == ascii
      && t[72] == '\n'
  {
  }

  lemma TailShape(chunk: seq<byte>)
    requires |chunk| <= WIDTH
    ensures |LineTail(chunk)| == 73 && LineTail(chunk)[0] == ' '
    ensures ReadTail(LineTail(chunk)) == Some(chunk)
  {
    hide HexCells, AsciiAt, ReadCells, ShowsByte;
    var cells, ascii := HexCells(chunk, WIDTH), AsciiCells(chunk, WIDTH);
    TailParts(cells, ascii);
    ReadCellsOk(chunk, WIDTH, 0);
    assert cells[0..] == cells && chunk[0..] == chunk;
    forall j | 0 <= j < 16
      ensures ShowsByte(ascii[j], chunk, j)
    {
      AsciiShown(chunk, j);
    }
  }

  lemma ReadLineOk(offset: nat, chunk: seq<byte>, rest: string)
    requires |chunk| <= WIDTH
    ensures ReadLine(Line(offset, chunk) + rest) == Some((DumpLine(offset, chunk), rest))
  {
    hide HexPadded, LineTail, HexSpan, ReadLine, HexNumber, ReadTail;
    var p, tail := HexPadded(offset, 4), LineTail(chunk);
    var s, t := Line(offset, chunk) + rest, tail + rest;
    assert s == p + t;
    HexNumberOfPadded(offset, 4);
    NoExtraZero(offset, 4);
    TailShape(chunk);
    assert t[0] == ' ' && t[..73] == tail && t[73..] == rest;
    HexSpanStops(p, t);
    ReadLineParts(s, p, t, chunk, rest);
  }

  lemma {:induction false} ReadDumpFromOk(data: seq<byte>, i: nat)
    ensures ReadDump(DumpFrom(data, i)) == Some(LinesFrom(data, i))
    decreases |data| - i
  {
    if i >= |data| {
    } else {
      var rest := DumpFrom(data, i + WIDTH);
      ReadLineOk(i, ChunkAt(data, i), rest);
      ReadDumpFromOk(data, i + WIDTH);
      Columns(ChunkAt(data, i), 0);
    }
  }

  lemma {:induction false} LinesShape(data: seq<byte>, i: nat)
    requires i <= |data|
    ensures Flatten(LinesFrom(data, i)) == data[i..]
    ensures |LinesFrom(data, i)| == (|data| - i + WIDTH - 1) / WIDTH
    ensures forall k | 0 <= k < |LinesFrom(data, i)| :: LinesFrom(data, i)[k].offset == i + WIDTH * k
    decreases |data| - i
  {
    if i >= |data| {
    } else {
      var lines := LinesFrom(data, i);
      if i + WIDTH <= |data| {
        LinesShape(data, i + WIDTH);
        assert data[i..] == data[i..i + WIDTH] + data[i + WIDTH..];
        assert ChunkAt(data, i) == data[i..i + WIDTH];
        assert forall k | 1 <= k < |lines| :: lines[k] == LinesFrom(data, i + WIDTH)[k - 1];
      } else {
        assert LinesFrom(data, i + WIDTH) == [];
        assert data[i..] + [] == data[i..];
        assert lines[1..] == [];
      }
    }
  }

  /**
   The dump of a packet can be read back: its lines carry the offsets 0, 16, 32, ...,
   there are as many as the packet has started groups of 16, and joined they are the packet.
   */
  lemma DumpReadable(data: seq<byte>)
    ensures var lines := ReadDump(DumpFrom(data, 0));
      && lines.Some?
      && Flatten(lines.value) == data
      && |lines.value| == (|data| + 15) / 16
      && forall k | 0 <= k < |lines.value| :: lines.value[k].offset == 16 * k
  {
    ReadDumpFromOk(data, 0);
    LinesShape(data, 0);
    assert data[0..] == data;
  }
}
