/** The hex dump of a byte buffer, written through a formatting stream, and how it reads back. */
module HexDump {
  import opened Prelude

  const BYTES_PER_LINE: nat := 16
  const OFFSET_WIDTH: nat := 8
  const HEX_OUTPUT_WIDTH: nat := BYTES_PER_LINE * 3 + 1

  // ---- what is written --------------------------------------------------------------------------------------------

  function DigitChar(d: nat): char
    requires d < 16
  {
    "0123456789abcdef"[d]
  }

  /** `n` in the given base, without leading zeros. */
  function Digits(n: nat, base: nat): string
    requires 2 <= base <= 16
  {
    if n < base then [DigitChar(n)] else Digits(n / base, base) + [DigitChar(n % base)]
  }

  function Fill(c: char, n: nat): string {
    seq(n, _ => c)
  }

  /** What a stream writes for `s` in a field of width `w`. */
  function Field(s: string, w: nat, fill: char, leftAligned: bool): string {
    if |s| >= w then s
    else if leftAligned then s + Fill(fill, w - |s|)
    else Fill(fill, w - |s|) + s
  }

  function HexBytes(bytes: seq<Byte>): string {
    if bytes == [] then "" else Field(Digits(bytes[0], 16), 2, '0', false) + " " + HexBytes(bytes[1..])
  }

  function Shown(bytes: seq<Byte>): string {
    seq(|bytes|, i requires 0 <= i < |bytes| => ShownChar(bytes[i]))
  }

  function ShownChar(b: Byte): char {
    if 0x20 <= b <= 0x7e then b as char else '.'
  }

  function Line(offset: nat, bytes: seq<Byte>): string {
    Field(Digits(offset, 16), OFFSET_WIDTH, '0', false) + "  " + LineBody(bytes)
  }

  function LineBody(bytes: seq<Byte>): string {
    Field(HexBytes(bytes), HEX_OUTPUT_WIDTH, ' ', true) + Shown(bytes) + "\n"
  }

  function Chunk(bytes: seq<Byte>): nat {
    if |bytes| < BYTES_PER_LINE then |bytes| else BYTES_PER_LINE
  }

  function Dump(bytes: seq<Byte>, offset: nat): string {
    if bytes == [] then ""
    else Line(offset, bytes[..Chunk(bytes)]) + Dump(bytes[Chunk(bytes)..], offset + BYTES_PER_LINE)
  }

  // ---- writing it -------------------------------------------------------------------------------------------------

  /** An output stream with its formatting state. A field width holds for one output only. */
  class Stream {
    var text: string
    var base: nat
    var leftAligned: bool
    var fill: char
    var width: nat

    ghost predicate Plain()
      reads this
    {
      base == 10 && !leftAligned && fill == ' ' && width == 0
    }

    constructor ()
      ensures Plain() && text == ""
    {
      text, base, leftAligned, fill, width := "", 10, false, ' ', 0;
    }

    method Write(s: string)
      modifies this`text, this`width
      ensures text == old(text) + Field(s, old(width), fill, leftAligned) && width == 0
    {
      text := text + Field(s, width, fill, leftAligned);
      width := 0;
    }

    method WriteNumber(n: nat)
      requires 2 <= base <= 16
      modifies this`text, this`width
      ensures text == old(text) + Field(Digits(n, base), old(width), fill, leftAligned) && width == 0
    {
      Write(Digits(n, base));
    }

    method Put(c: char)
      modifies this`text
      ensures text == old(text) + [c]
    {
      text := text + [c];
    }
  }

  /** The bytes in hex; the stream's flags and fill character are put back afterwards. */
  method DumpBytesAsHex(output: Stream, bytes: seq<Byte>)
    requires output.width == 0 && !output.leftAligned
    modifies output
    ensures output.text == old(output.text) + HexBytes(bytes)
    ensures output.base == old(output.base) && output.fill == old(output.fill)
    ensures !output.leftAligned && output.width == 0
  {
    hide Field, Digits;
    var oldBase, oldFill := output.base, output.fill;
    output.base, output.fill := 16, '0';
    for i := 0 to |bytes|
      invariant old(output.text) + HexBytes(bytes) == output.text + HexBytes(bytes[i..])
      invariant output.base == 16 && output.fill == '0' && !output.leftAligned && output.width == 0
    {
      ghost var before := output.text;
      output.width := 2;
      output.WriteNumber(bytes[i]);
      output.Write(" ");
      HexBytesStep(bytes[i..]);
      assert bytes[i..][1..] == bytes[i + 1..];
      assert output.text + HexBytes(bytes[i + 1..]) == before + HexBytes(bytes[i..]);
    }
    output.base, output.fill := oldBase, oldFill;
  }

  lemma HexBytesStep(bytes: seq<Byte>)
    requires bytes != []
    ensures HexBytes(bytes)
            == Field(Digits(bytes[0], 16), 2, '0', false) + Field(" ", 0, '0', false) + HexBytes(bytes[1..])
  {
  }

  method DumpBytesAsText(output: Stream, bytes: seq<Byte>)
    modifies output`text
    ensures output.text == old(output.text) + Shown(bytes)
  {
    for i := 0 to |bytes|
      invariant output.text == old(output.text) + Shown(bytes)[..i]
    {
      output.Put(ShownChar(bytes[i]));
    }
  }

  /** One line without its offset. */
  method DumpLineBody(output: Stream, bytes: seq<Byte>)
    requires output.Plain()
    modifies output
    ensures output.text == old(output.text) + LineBody(bytes) && output.Plain()
  {
    hide HexBytes, Shown, Fill;
    var oldLeft := output.leftAligned;
    var hexStream := new Stream();
    DumpBytesAsHex(hexStream, bytes);
    assert hexStream.text == HexBytes(bytes);
    output.width := HEX_OUTPUT_WIDTH;
    output.leftAligned := true;
    output.Write(hexStream.text);
    DumpBytesAsText(output, bytes);
    output.Put('\n');
    output.leftAligned := oldLeft;
  }

  method DumpHexLine(output: Stream, offset: nat, bytes: seq<Byte>)
    requires output.Plain()
    modifies output
    ensures output.text == old(output.text) + Line(offset, bytes) && output.Plain()
  {
    hide Digits, LineBody;
    var oldBase, oldFill := output.base, output.fill;
    ghost var before := output.text;
    output.width, output.fill, output.base := OFFSET_WIDTH, '0', 16;
    output.WriteNumber(offset);
    output.Write("  ");
    output.base, output.fill := oldBase, oldFill;
    assert output.text == before + (Field(Digits(offset, 16), OFFSET_WIDTH, '0', false) + "  ");
    DumpLineBody(output, bytes);
  }

  /** The dump of the whole buffer is appended, and the stream's formatting is as before. */
  method DumpBuffer(output: Stream, input: seq<Byte>)
    requires output.Plain()
    modifies output
    ensures output.text == old(output.text) + Dump(input, 0) && output.Plain()
  {
    hide Line;
    var bytesToDump: seq<Byte> := [];
    var offset, bytesRead := 0, 0;
    assert input[0..] == input;
    while bytesRead < |input|
      invariant 0 <= offset <= bytesRead <= |input| && bytesRead - offset < BYTES_PER_LINE
      invariant bytesToDump == input[offset..bytesRead]
      invariant old(output.text) + Dump(input, 0) == output.text + Dump(input[offset..], offset)
      invariant output.Plain()
    {
      bytesToDump := bytesToDump + [input[bytesRead]];
      bytesRead := bytesRead + 1;
      if |bytesToDump| == BYTES_PER_LINE {
        assert input[offset..][..BYTES_PER_LINE] == bytesToDump;
        assert input[offset..][BYTES_PER_LINE..] == input[offset + BYTES_PER_LINE..];
        DumpHexLine(output, offset, bytesToDump);
        bytesToDump := [];
        offset := offset + BYTES_PER_LINE;
      }
    }
    if bytesToDump != [] {
      assert input[offset..][..|bytesToDump|] == bytesToDump;
      assert input[offset..][|bytesToDump|..] == [];
      DumpHexLine(output, offset, bytesToDump);
    }
  }

  // ---- reading it back --------------------------------------------------------------------------------------------

  /** One line of a dump: its offset, the bytes of its hex column, and its text column. */
  datatype Row = Row(offset: nat, bytes: seq<Byte>, shown: string)

  predicate IsDigit(c: char) {
    '0' <= c <= '9' || 'a' <= c <= 'f'
  }

  function DigitValue(c: char): (d: nat)
    requires IsDigit(c)
    ensures d < 16
  {
    if c <= '9' then c as int - '0' as int else c as int - 'a' as int + 10
  }

  predicate IsNumber(s: string) {
    s != [] && forall i :: 0 <= i < |s| ==> IsDigit(s[i])
  }

  function NumberOf(s: string): nat
    requires forall i :: 0 <= i < |s| ==> IsDigit(s[i])
  {
    if s == [] then 0 else 16 * NumberOf(s[..|s| - 1]) + DigitValue(s[|s| - 1])
  }

  /** Where `c` first occurs in `s`, or the length of `s`. */
  function Find(s: string, c: char): (k: nat)
    ensures k <= |s| && c !in s[..k] && (k < |s| ==> s[k] == c)
  {
    if s == [] || s[0] == c then 0 else 1 + Find(s[1..], c)
  }

  /** The bytes of a hex column, up to the first place that does not hold two digits and a space. */
  function ReadBytes(column: string): seq<Byte> {
    if |column| < 3 || !IsDigit(column[0]) || !IsDigit(column[1]) || column[2] != ' ' then []
    else [16 * DigitValue(column[0]) + DigitValue(column[1])] + ReadBytes(column[3..])
  }

  function ReadRow(line: string): Option<Row> {
    var k := Find(line, ' ');
    if !IsNumber(line[..k]) || |line| < k + 2 + HEX_OUTPUT_WIDTH || line[k + 1] != ' ' then None
    else
      var columns := line[k + 2..];
      Some(Row(NumberOf(line[..k]), ReadBytes(columns[..HEX_OUTPUT_WIDTH]), columns[HEX_OUTPUT_WIDTH..]))
  }

  function ReadDump(text: string): Option<seq<Row>>
    decreases |text|
  {
    if text == "" then Some([])
    else
      var k := Find(text, '\n');
      if k == |text| then None
      else
        match (ReadRow(text[..k]), ReadDump(text[k + 1..]))
        case (Some(row), Some(rows)) => Some([row] + rows)
        case _ => None
  }

  function AllBytes(rows: seq<Row>): seq<Byte> {
    if rows == [] then [] else rows[0].bytes + AllBytes(rows[1..])
  }

  lemma FindIs(s: string, c: char, k: nat)
    requires k < |s| && s[k] == c && c !in s[..k]
    ensures Find(s, c) == k
  {
  }

  lemma DigitReads(d: nat)
    requires d < 16
    ensures IsDigit(DigitChar(d)) && DigitValue(DigitChar(d)) == d
  {
  }

  lemma {:induction false} DigitsRead(n: nat)
    ensures IsNumber(Digits(n, 16)) && NumberOf(Digits(n, 16)) == n
  {
    DigitReads(n % 16);
    hide DigitChar, DigitValue, IsDigit;
    var d := Digits(n, 16);
    if n >= 16 {
      DigitsRead(n / 16);
      assert d[..|d| - 1] == Digits(n / 16, 16) && d[|d| - 1] == DigitChar(n % 16);
    } else {
      assert d == [DigitChar(n)] && d[..0] == [];
    }
  }

  lemma {:induction false} ZerosRead(k: nat, s: string)
    requires IsNumber(s)
    ensures IsNumber(Fill('0', k) + s) && NumberOf(Fill('0', k) + s) == NumberOf(s)
    decreases |s|
  {
    var z := Fill('0', k) + s;
    if |s| == 1 {
      assert z[..|z| - 1] == Fill('0', k);
      ZerosAreZero(k);
      assert s[..0] == [];
    } else {
      assert z[..|z| - 1] == Fill('0', k) + s[..|s| - 1];
      ZerosRead(k, s[..|s| - 1]);
    }
  }

  lemma {:induction false} ZerosAreZero(k: nat)
    ensures forall i :: 0 <= i < k ==> IsDigit(Fill('0', k)[i])
    ensures NumberOf(Fill('0', k)) == 0
  {
    if k > 0 {
      assert Fill('0', k)[..k - 1] == Fill('0', k - 1);
      ZerosAreZero(k - 1);
    }
  }

  /** An offset of any size reads back, padded or not. */
  lemma OffsetReads(offset: nat)
    ensures var s := Field(Digits(offset, 16), OFFSET_WIDTH, '0', false);
            IsNumber(s) && NumberOf(s) == offset && ' ' !in s && '\n' !in s
  {
    DigitsRead(offset);
    var d := Digits(offset, 16);
    if |d| < OFFSET_WIDTH {
      ZerosRead(OFFSET_WIDTH - |d|, d);
    }
  }

  lemma ByteReads(b: Byte)
    ensures var s := Field(Digits(b, 16), 2, '0', false);
      |s| == 2 && IsDigit(s[0]) && IsDigit(s[1]) && 16 * DigitValue(s[0]) + DigitValue(s[1]) == b && '\n' !in s
  {
    DigitReads(b / 16);
    DigitReads(b % 16);
    hide DigitChar, DigitValue;
    if b >= 16 {
      assert Digits(b, 16) == [DigitChar(b / 16)] + [DigitChar(b % 16)];
    } else {
      assert Fill('0', 1) == [DigitChar(0)];
    }
  }

  /** Two digits and a space are taken off a hex column as one byte. */
  lemma ByteTaken(s: string, more: string)
    requires |s| == 2 && IsDigit(s[0]) && IsDigit(s[1])
    ensures ReadBytes(s + " " + more) == [16 * DigitValue(s[0]) + DigitValue(s[1])] + ReadBytes(more)
  {
    hide IsDigit, DigitValue;
    var column := s + " " + more;
    assert column[0] == s[0] && column[1] == s[1] && column[2] == ' ' && column[3..] == more;
  }

  lemma {:induction false} HexBytesRead(bytes: seq<Byte>, rest: string)
    requires rest == "" || !IsDigit(rest[0])
    ensures |HexBytes(bytes)| == 3 * |bytes| && '\n' !in HexBytes(bytes)
    ensures ReadBytes(HexBytes(bytes) + rest) == bytes
  {
    hide Field, Digits, DigitValue, IsDigit;
    if bytes == [] {
      assert HexBytes(bytes) + rest == rest;
    } else {
      var s := Field(Digits(bytes[0], 16), 2, '0', false);
      ByteReads(bytes[0]);
      HexBytesRead(bytes[1..], rest);
      ByteTaken(s, HexBytes(bytes[1..]) + rest);
      hide ReadBytes;
      assert HexBytes(bytes) == s + " " + HexBytes(bytes[1..]);
      assert HexBytes(bytes) + rest == s + " " + (HexBytes(bytes[1..]) + rest);
    }
  }

  /** A hex column padded to its width reads back, and takes up exactly that width. */
  lemma ColumnReads(bytes: seq<Byte>)
    requires |bytes| <= BYTES_PER_LINE
    ensures var column := Field(HexBytes(bytes), HEX_OUTPUT_WIDTH, ' ', true);
      |column| == HEX_OUTPUT_WIDTH && '\n' !in column && ReadBytes(column) == bytes
  {
    HexBytesRead(bytes, Fill(' ', HEX_OUTPUT_WIDTH - 3 * |bytes|));
  }

  lemma LineReads(offset: nat, bytes: seq<Byte>)
    requires |bytes| <= BYTES_PER_LINE
    ensures var line := Line(offset, bytes);
      && line != "" && Find(line, '\n') == |line| - 1
      && ReadRow(line[..|line| - 1]) == Some(Row(offset, bytes, Shown(bytes)))
  {
    var number := Field(Digits(offset, 16), OFFSET_WIDTH, '0', false);
    var column := Field(HexBytes(bytes), HEX_OUTPUT_WIDTH, ' ', true);
    OffsetReads(offset);
    ColumnReads(bytes);
    var line := Line(offset, bytes);
    var front := number + "  " + (column + Shown(bytes));
    assert line == front + "\n";
    assert line[..|line| - 1] == front;
    assert '\n' !in Shown(bytes);
    hide Field, Digits, HexBytes, ReadBytes, NumberOf, IsDigit, Find, Shown, Line;
    FindIs(line, '\n', |line| - 1);
    RowReads(number, column, Shown(bytes));
  }

  lemma RowReads(number: string, column: string, shown: string)
    requires IsNumber(number) && ' ' !in number && |column| == HEX_OUTPUT_WIDTH
    ensures ReadRow(number + "  " + (column + shown)) == Some(Row(NumberOf(number), ReadBytes(column), shown))
  {
    hide IsDigit, NumberOf, ReadBytes, Find;
    var front := number + "  " + (column + shown);
    assert front[..|number|] == number && front[|number|] == ' ' && front[|number| + 1] == ' ';
    FindIs(front, ' ', |number|);
    assert front[|number| + 2..] == column + shown;
    assert (column + shown)[..HEX_OUTPUT_WIDTH] == column && (column + shown)[HEX_OUTPUT_WIDTH..] == shown;
  }

  /** The text column: printable ASCII characters as they are, a period for every other byte. */
  predicate Shows(shown: string, bytes: seq<Byte>) {
    && |shown| == |bytes|
    && forall i :: 0 <= i < |shown| ==> if 32 <= bytes[i] <= 126 then shown[i] as int == bytes[i] else shown[i] == '.'
  }

  lemma ShownShows(bytes: seq<Byte>)
    ensures Shows(Shown(bytes), bytes)
  {
  }

  /** What the rows read from a dump of `bytes` from `offset` on should be. */
  ghost predicate Describes(rows: seq<Row>, bytes: seq<Byte>, offset: nat) {
    && AllBytes(rows) == bytes
    && (forall i :: 0 <= i < |rows| ==>
          rows[i].offset == offset + 16 * i && Shows(rows[i].shown, rows[i].bytes))
    && (forall i :: 0 <= i < |rows| - 1 ==> |rows[i].bytes| == 16)
    && (rows != [] ==> 0 < |rows[|rows| - 1].bytes| <= 16)
  }

  /** Reading a line and then the rest. */
  lemma ReadStep(line: string, row: Row, rest: string)
    requires line != "" && Find(line, '\n') == |line| - 1 && ReadRow(line[..|line| - 1]) == Some(row)
    requires ReadDump(rest).Some?
    ensures ReadDump(line + rest) == Some([row] + ReadDump(rest).value)
  {
    hide ReadRow, Find;
    var text := line + rest;
    assert text[..|line| - 1] == line[..|line| - 1] && text[|line| - 1] == line[|line| - 1];
    FindIs(text, '\n', |line| - 1);
    assert text[|line|..] == rest;
  }

  lemma DescribesStep(row: Row, rows: seq<Row>, bytes: seq<Byte>, offset: nat)
    requires bytes != [] && row == Row(offset, bytes[..Chunk(bytes)], Shown(bytes[..Chunk(bytes)]))
    requires Describes(rows, bytes[Chunk(bytes)..], offset + BYTES_PER_LINE)
    ensures Describes([row] + rows, bytes, offset)
  {
    ShownShows(bytes[..Chunk(bytes)]);
    hide Shown, Shows;
    assert ([row] + rows)[1..] == rows;
    assert bytes[..Chunk(bytes)] + bytes[Chunk(bytes)..] == bytes;
  }

  /** A dump can be read back: the hex columns together are the buffer, line `i` carries offset 16 * i, and every
      line but the last holds sixteen bytes. */
  lemma {:induction false} DumpReadsBack(bytes: seq<Byte>, offset: nat)
    ensures ReadDump(Dump(bytes, offset)).Some? && Describes(ReadDump(Dump(bytes, offset)).value, bytes, offset)
    decreases |bytes|
  {
    hide Shown, Line, ReadRow, Find;
    if bytes != [] {
      hide Describes;
      var k := Chunk(bytes);
      LineReads(offset, bytes[..k]);
      DumpReadsBack(bytes[k..], offset + BYTES_PER_LINE);
      var row, rest := Row(offset, bytes[..k], Shown(bytes[..k])), Dump(bytes[k..], offset + BYTES_PER_LINE);
      ReadStep(Line(offset, bytes[..k]), row, rest);
      DescribesStep(row, ReadDump(rest).value, bytes, offset);
    }
  }

  lemma {:induction false} FewDigits(n: nat, k: nat)
    requires 0 < k && n < Power(k)
    ensures 1 <= |Digits(n, 16)| <= k
    decreases k
  {
    if n >= 16 {
      FewDigits(n / 16, k - 1);
    }
  }

  function Power(k: nat): nat {
    if k == 0 then 1 else 16 * Power(k - 1)
  }

  /** Where things stand in a line: eight digits of offset, two spaces, 48 characters of hex bytes and a space, the
      text column, a line end. */
  lemma LineLayout(offset: nat, bytes: seq<Byte>)
    requires offset < 0x1_0000_0000 && |bytes| <= 16
    ensures var line := Line(offset, bytes);
      && |line| == 8 + 2 + 49 + |bytes| + 1
      && IsNumber(line[..8]) && NumberOf(line[..8]) == offset
      && line[8] == ' ' == line[9] && line[58] == ' '
      && ReadBytes(line[10..59]) == bytes
      && Shows(line[59..59 + |bytes|], bytes)
      && line[|line| - 1] == '\n'
  {
    assert Power(2) == 256 && Power(4) == 65536 && Power(8) == 0x1_0000_0000 by {
      assert Power(4) == 256 * Power(2) && Power(6) == 256 * Power(4) && Power(8) == 256 * Power(6);
    }
    FewDigits(offset, 8);
    OffsetReads(offset);
    ColumnReads(bytes);
    LastSpace(bytes);
    ShownShows(bytes);
    assert |Shown(bytes)| == |bytes|;
    var number := Field(Digits(offset, 16), OFFSET_WIDTH, '0', false);
    var column := Field(HexBytes(bytes), HEX_OUTPUT_WIDTH, ' ', true);
    assert |number| == 8;
    assert Line(offset, bytes) == number + "  " + (column + Shown(bytes) + "\n");
    hide Line, Field, Digits, HexBytes, ReadBytes, NumberOf, IsNumber, Shown, Shows, Power;
    Assembled(number, column, Shown(bytes));
  }

  lemma Assembled(number: string, column: string, shown: string)
    requires |number| == 8 && |column| == 49
    ensures var line := number + "  " + (column + shown + "\n");
      && |line| == 60 + |shown| && line[..8] == number && line[8] == ' ' == line[9]
      && line[10..59] == column && line[58] == column[48]
      && line[59..59 + |shown|] == shown && line[|line| - 1] == '\n'
  {
  }

  lemma LastSpace(bytes: seq<Byte>)
    requires |bytes| <= BYTES_PER_LINE
    ensures |Field(HexBytes(bytes), HEX_OUTPUT_WIDTH, ' ', true)| == 49
    ensures Field(HexBytes(bytes), HEX_OUTPUT_WIDTH, ' ', true)[48] == ' '
  {
    HexBytesRead(bytes, "");
  }

  /** Different buffers have different dumps. */
  lemma DumpsDiffer(a: seq<Byte>, b: seq<Byte>)
    requires a != b
    ensures Dump(a, 0) != Dump(b, 0)
  {
    DumpReadsBack(a, 0);
    DumpReadsBack(b, 0);
  }
}
