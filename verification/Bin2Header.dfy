/** The generator of C++ headers from binary files (`libmamba/data/bin2header.py`). */
module Bin2Header {
  import opened Wrappers

  type Byte = x: int | 0 <= x < 256

  function Digit(d: nat): char
    requires d < 16
  {
    if d < 10 then '0' + d as char else 'a' + (d - 10) as char
  }

  /** Two lower-case hexadecimal digits. */
  function Hex(b: Byte): string {
    ['0', 'x', Digit(b / 16), Digit(b % 16)]
  }

  /** The bytes of one chunk, with a comma and a space between them. */
  function HexList(chunk: seq<Byte>): string {
    if chunk == [] then ""
    else if |chunk| == 1 then Hex(chunk[0])
    else Hex(chunk[0]) + ", " + HexList(chunk[1..])
  }

  function Smaller(a: nat, b: nat): nat {
    if a < b then a else b
  }

  /** `data[i:][:12]` for every twelfth `i`. */
  function Chunks(data: seq<Byte>): seq<seq<Byte>> {
    if data == [] then []
    else
      var n := Smaller(12, |data|);
      [data[..n]] + Chunks(data[n..])
  }

  function ChunkLine(chunk: seq<Byte>): string {
    "  " + HexList(chunk) + ","
  }

  function ChunkLines(chunks: seq<seq<Byte>>): seq<string> {
    if chunks == [] then [] else [ChunkLine(chunks[0])] + ChunkLines(chunks[1..])
  }

  const NULL_COMMENT := "// Terminating null byte"
  const NULL_LINE := "  0x00 " + NULL_COMMENT

  /** The lines between the braces of the array. */
  function ArrayLines(data: seq<Byte>): seq<string> {
    ChunkLines(Chunks(data)) + [NULL_LINE]
  }

  function Decimal(n: nat): string {
    (if n < 10 then "" else Decimal(n / 10)) + [Digit(n % 10)]
  }

  function LengthLine(name: string, data: seq<Byte>): string {
    "const std::size_t " + name + "_len = " + Decimal(|data|) + ";"
  }

  function Header(comment: string, data: seq<Byte>, name: string, isExtern: bool): seq<string> {
    [comment, "#include <cstddef>"]
    + (if isExtern then ["extern const char " + name + "[];", "extern const std::size_t " + name + "_len;"] else [])
    + ["const char " + name + "[] = {"]
    + ArrayLines(data)
    + ["};", LengthLine(name, data)]
  }

  // ---------- reading the array again ----------

  function DigitValue(c: char): Option<nat> {
    if '0' <= c <= '9' then Some((c - '0') as nat)
    else if 'a' <= c <= 'f' then Some((c - 'a') as nat + 10)
    else None
  }

  /** The byte written at the head of a text, if there is one. */
  function ByteAt(s: string): Option<Byte> {
    if |s| < 4 || s[0] != '0' || s[1] != 'x' then None
    else
      match (DigitValue(s[2]), DigitValue(s[3]))
      case (Some(a), Some(b)) => Some(16 * a + b)
      case _ => None
  }

  /** The bytes written on a line, up to a comment. */
  function LineBytes(s: string): seq<Byte> {
    if s == "" || "//" <= s then []
    else if ByteAt(s).Some? then [ByteAt(s).value] + LineBytes(s[4..])
    else LineBytes(s[1..])
  }

  function AllBytes(lines: seq<string>): seq<Byte> {
    if lines == [] then [] else LineBytes(lines[0]) + AllBytes(lines[1..])
  }

  lemma HexRead(b: Byte, rest: string)
    ensures LineBytes(Hex(b) + rest) == [b] + LineBytes(rest)
  {
    var s := Hex(b) + rest;
    assert s[4..] == rest;
    assert DigitValue(Digit(b / 16)) == Some(b / 16) && DigitValue(Digit(b % 16)) == Some(b % 16);
    assert !("//" <= s) by {
      assert s[0] == '0';
    }
    assert ByteAt(s) == Some(b);
  }

  /** A character that begins neither a byte nor a comment is passed over. */
  lemma PassedOver(c: char, rest: string)
    requires c != '0' && c != '/'
    ensures LineBytes([c] + rest) == LineBytes(rest)
  {
    var s := [c] + rest;
    assert s[0] == c && s[1..] == rest;
    assert "//"[0] == '/';
  }

  lemma CommaRead(rest: string)
    ensures LineBytes("," + rest) == LineBytes(rest) && LineBytes(" " + rest) == LineBytes(rest)
  {
    PassedOver(',', rest);
    PassedOver(' ', rest);
  }

  lemma {:induction false} ListRead(chunk: seq<Byte>)
    ensures LineBytes(HexList(chunk) + ",") == chunk
  {
    CommaRead("");
    assert "," + "" == ",";
    if |chunk| == 1 {
      HexRead(chunk[0], ",");
    } else if |chunk| > 1 {
      var rest := HexList(chunk[1..]) + ",";
      assert HexList(chunk) + "," == Hex(chunk[0]) + ("," + (" " + rest));
      HexRead(chunk[0], "," + (" " + rest));
      CommaRead(" " + rest);
      CommaRead(rest);
      ListRead(chunk[1..]);
    } else {
      assert HexList(chunk) + "," == ",";
    }
  }

  lemma LineRead(chunk: seq<Byte>)
    ensures LineBytes(ChunkLine(chunk)) == chunk
  {
    var list := HexList(chunk) + ",";
    assert ChunkLine(chunk) == " " + (" " + list);
    CommaRead(" " + list);
    CommaRead(list);
    ListRead(chunk);
  }

  lemma ZeroThen(tail: string)
    requires "//" <= tail
    ensures LineBytes("  0x00 " + tail) == [0]
  {
    assert "  0x00 " + tail == " " + (" " + (Hex(0) + (" " + tail)));
    CommaRead(" " + (Hex(0) + (" " + tail)));
    CommaRead(Hex(0) + (" " + tail));
    HexRead(0, " " + tail);
    CommaRead(tail);
  }

  lemma NullRead()
    ensures LineBytes(NULL_LINE) == [0]
  {
    ZeroThen(NULL_COMMENT);
  }

  lemma {:induction false} BytesAppend(lines: seq<string>, line: string)
    ensures AllBytes(lines + [line]) == AllBytes(lines) + LineBytes(line)
  {
    if lines != [] {
      assert (lines + [line])[1..] == lines[1..] + [line];
      BytesAppend(lines[1..], line);
    }
  }

  lemma {:induction false} ChunksRead(data: seq<Byte>)
    ensures AllBytes(ChunkLines(Chunks(data))) == data
  {
    if data != [] {
      var n := Smaller(12, |data|);
      LineRead(data[..n]);
      ChunksRead(data[n..]);
      assert ([data[..n]] + Chunks(data[n..]))[1..] == Chunks(data[n..]);
      assert data == data[..n] + data[n..];
    }
  }

  /** The array that the header defines is the data and one zero byte behind it. */
  lemma ArrayIsData(data: seq<Byte>)
    ensures AllBytes(ArrayLines(data)) == data + [0]
  {
    ChunksRead(data);
    NullRead();
    BytesAppend(ChunkLines(Chunks(data)), NULL_LINE);
  }

  /** Twelve bytes to a line, and only the last line may hold fewer. */
  lemma {:induction false} ChunkSizes(data: seq<Byte>)
    ensures |Chunks(data)| == (|data| + 11) / 12
    ensures forall i :: 0 <= i < |Chunks(data)| ==>
              1 <= |Chunks(data)[i]| <= 12 && (i < |Chunks(data)| - 1 ==> |Chunks(data)[i]| == 12)
  {
    if data != [] {
      ChunkSizes(data[Smaller(12, |data|)..]);
    }
  }

  function ReadDecimal(s: string): nat {
    if s == "" then 0
    else
      10 * ReadDecimal(s[..|s| - 1])
      + (match DigitValue(s[|s| - 1]) case Some(d) => d case None => 0)
  }

  /** The declared length is the number of bytes. */
  lemma {:induction false} LengthIsRead(n: nat)
    ensures ReadDecimal(Decimal(n)) == n
  {
    var s := Decimal(n);
    assert DigitValue(Digit(n % 10)) == Some(n % 10);
    if n < 10 {
      assert s[..|s| - 1] == "";
    } else {
      assert s[..|s| - 1] == Decimal(n / 10);
      LengthIsRead(n / 10);
    }
  }

  // ---------- reading the whole header again ----------

  function UpToBrace(lines: seq<string>): seq<string> {
    if lines == [] || lines[0] == "};" then [] else [lines[0]] + UpToBrace(lines[1..])
  }

  /** The lines of the array of this name: behind the line that defines it, up to the closing brace. */
  function ArrayOf(name: string, lines: seq<string>): seq<string> {
    if lines == [] then []
    else if lines[0] == "const char " + name + "[] = {" then UpToBrace(lines[1..])
    else ArrayOf(name, lines[1..])
  }

  /** The number at the end of the line that defines the length. */
  function LengthOf(name: string, lines: seq<string>): Option<nat> {
    if lines == [] then None
    else
      var line, key := lines[|lines| - 1], "const std::size_t " + name + "_len = ";
      if key <= line && |line| > |key| && line[|line| - 1] == ';'
      then Some(ReadDecimal(line[|key|..|line| - 1])) else None
  }

  lemma {:induction false} ArrayEnds(chunks: seq<seq<Byte>>, rest: seq<string>)
    ensures UpToBrace(ChunkLines(chunks) + ([NULL_LINE, "};"] + rest)) == ChunkLines(chunks) + [NULL_LINE]
  {
    var lines := ChunkLines(chunks) + ([NULL_LINE, "};"] + rest);
    if chunks == [] {
      assert lines[0] == NULL_LINE && lines[0][0] == ' ' && lines[1] == "};";
      assert lines[1..][0] == "};";
    } else {
      assert lines[0] == ChunkLine(chunks[0]) && lines[0][0] == ' ';
      assert lines[1..] == ChunkLines(chunks[1..]) + ([NULL_LINE, "};"] + rest);
      ArrayEnds(chunks[1..], rest);
    }
  }

  lemma ArrayFound(name: string, before: seq<string>, decl: string, rest: seq<string>)
    requires decl == "const char " + name + "[] = {" && forall l <- before :: l != decl
    ensures ArrayOf(name, before + [decl] + rest) == UpToBrace(rest)
    decreases |before|
  {
    var lines := before + [decl] + rest;
    if before == [] {
      assert lines[1..] == rest;
    } else {
      assert before[0] in before && forall l <- before[1..] :: l in before;
      assert lines[0] == before[0];
      assert lines[1..] == before[1..] + [decl] + rest;
      ArrayFound(name, before[1..], decl, rest);
    }
  }

  lemma NoneDeclares(comment: string, name: string)
    requires "/*" <= comment
    ensures var decl := "const char " + name + "[] = {";
            && comment != decl && "#include <cstddef>" != decl
            && "extern const char " + name + "[];" != decl && "extern const std::size_t " + name + "_len;" != decl
  {
    assert comment[0] == '/' && "#include <cstddef>"[0] == '#' && ("const char " + name + "[] = {")[0] == 'c';
    assert ("extern const char " + name + "[];")[0] == 'e';
    assert ("extern const std::size_t " + name + "_len;")[0] == 'e';
  }

  lemma ArrayOfHeader(comment: string, data: seq<Byte>, name: string, isExtern: bool)
    requires "/*" <= comment
    ensures ArrayOf(name, Header(comment, data, name, isExtern)) == ArrayLines(data)
  {
    var externs := if isExtern
                   then ["extern const char " + name + "[];", "extern const std::size_t " + name + "_len;"] else [];
    var before := [comment, "#include <cstddef>"] + externs;
    var decl := "const char " + name + "[] = {";
    var rest := [LengthLine(name, data)];
    NoneDeclares(comment, name);
    ArrayFound(name, before, decl, ChunkLines(Chunks(data)) + ([NULL_LINE, "};"] + rest));
    ArrayEnds(Chunks(data), rest);
    assert Header(comment, data, name, isExtern)
        == before + [decl] + (ChunkLines(Chunks(data)) + ([NULL_LINE, "};"] + rest));
  }

  lemma LengthOfHeader(comment: string, data: seq<Byte>, name: string, isExtern: bool)
    ensures LengthOf(name, Header(comment, data, name, isExtern)) == Some(|data|)
  {
    var lines := Header(comment, data, name, isExtern);
    var line, key := lines[|lines| - 1], "const std::size_t " + name + "_len = ";
    assert line == LengthLine(name, data);
    assert line == key + Decimal(|data|) + ";";
    assert line[|key|..|line| - 1] == Decimal(|data|);
    LengthIsRead(|data|);
  }

  /** A program that includes the header sees, under the name that was given, the data, one zero byte
      behind it, and its length. */
  lemma HeaderIsData(comment: string, data: seq<Byte>, name: string, isExtern: bool)
    requires "/*" <= comment
    ensures var lines := Header(comment, data, name, isExtern);
            AllBytes(ArrayOf(name, lines)) == data + [0] && LengthOf(name, lines) == Some(|data|)
  {
    ArrayOfHeader(comment, data, name, isExtern);
    ArrayIsData(data);
    LengthOfHeader(comment, data, name, isExtern);
  }

  /** The header begins with the comment, and then declares both names as extern if that is asked for. */
  lemma DeclaredExtern(comment: string, data: seq<Byte>, name: string, isExtern: bool)
    requires "/*" <= comment
    ensures var lines := Header(comment, data, name, isExtern);
            && lines[0] == comment && lines[1] == "#include <cstddef>"
            && (isExtern ==> lines[2] == "extern const char " + name + "[];"
                             && lines[3] == "extern const std::size_t " + name + "_len;")
            && (!isExtern ==> lines[2] == "const char " + name + "[] = {")
  {
  }
}
