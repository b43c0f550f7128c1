/** One line of rsync output: itemized records, progress records, and the escapes in a path. */
module TransferLines {
  import opened Common

  type Byte = n: int | 0 <= n < 256

  type Bytes = seq<Byte>

  predicate Is(byte: Byte, c: char) {
    byte == c as int
  }

  /** The line starts with this text. */
  predicate StartsWith(line: Bytes, text: string) {
    |text| <= |line| && forall i :: 0 <= i < |text| ==> Is(line[i], text[i])
  }

  predicate Spells(line: Bytes, text: string) {
    |line| == |text| && StartsWith(line, text)
  }

  /** `u8::is_ascii_whitespace`. */
  predicate Whitespace(byte: Byte) {
    byte in {0x20, 0x09, 0x0A, 0x0C, 0x0D}
  }

  // ----- UTF-8 -----

  predicate Trail(bytes: Bytes, i: nat) {
    i < |bytes| && 0x80 <= bytes[i] <= 0xBF
  }

  /** The length of the well-formed sequence the bytes start with (table 3-7 of the Unicode Standard), or 0. */
  function ScalarLength(bytes: Bytes): (n: nat)
    requires bytes != []
    ensures n <= |bytes|
  {
    var b := bytes[0];
    var second := if |bytes| > 1 then bytes[1] else 0;
    if b <= 0x7F then 1
    else if 0xC2 <= b <= 0xDF && Trail(bytes, 1) then 2
    else if 0xE0 <= b <= 0xEF && Trail(bytes, 1) && Trail(bytes, 2) &&
            (b == 0xE0 ==> second >= 0xA0) && (b == 0xED ==> second <= 0x9F) then 3
    else if 0xF0 <= b <= 0xF4 && Trail(bytes, 1) && Trail(bytes, 2) && Trail(bytes, 3) &&
            (b == 0xF0 ==> second >= 0x90) && (b == 0xF4 ==> second <= 0x8F) then 4
    else 0
  }

  /** `std::str::from_utf8` succeeds. */
  predicate ValidUtf8(bytes: Bytes) {
    bytes == [] || (ScalarLength(bytes) > 0 && ValidUtf8(bytes[ScalarLength(bytes)..]))
  }

  lemma {:induction false} AsciiIsUtf8(bytes: Bytes)
    requires forall i :: 0 <= i < |bytes| ==> bytes[i] <= 0x7F
    ensures ValidUtf8(bytes)
  {
    if bytes != [] {
      AsciiIsUtf8(bytes[1..]);
    }
  }

  // ----- Escapes -----

  /** One byte of a path as it is written: itself, a named escape, `\xHH`, or up to three octal digits. */
  datatype Piece = Plain(byte: Byte) | Named(byte: Byte) | Hex(high: Byte, low: Byte) | Octal(digits: Bytes)

  const BACKSLASH: Byte := 0x5C

  function HexDigit(byte: Byte): Option<nat> {
    if '0' as int <= byte <= '9' as int then Some(byte - '0' as int)
    else if 'a' as int <= byte <= 'f' as int then Some(byte - 'a' as int + 10)
    else if 'A' as int <= byte <= 'F' as int then Some(byte - 'A' as int + 10)
    else None
  }

  predicate IsDigit(byte: Byte) {
    '0' as int <= byte <= '9' as int
  }

  predicate IsOctal(byte: Byte) {
    '0' as int <= byte <= '7' as int
  }

  function DigitValue(byte: Byte): nat
    requires IsDigit(byte)
  {
    byte - '0' as int
  }

  predicate AllOctal(digits: Bytes) {
    forall i :: 0 <= i < |digits| ==> IsOctal(digits[i])
  }

  function OctalValue(digits: Bytes): nat
    requires AllOctal(digits)
  {
    if digits == [] then 0
    else
      assert IsOctal(digits[|digits| - 1]);
      OctalValue(Init(digits)) * 8 + DigitValue(Last(digits))
  }

  predicate ValidPiece(piece: Piece) {
    match piece
    case Plain(byte) => byte != BACKSLASH
    case Named(byte) => byte in {BACKSLASH, 0x0A, 0x0D, 0x09}
    case Hex(high, low) => HexDigit(high).Some? && HexDigit(low).Some?
    case Octal(digits) =>
      && 1 <= |digits| <= 3 && AllOctal(digits) && OctalValue(digits) < 256
  }

  /** The byte a piece stands for. */
  function ByteOf(piece: Piece): Byte
    requires ValidPiece(piece)
  {
    match piece
    case Plain(byte) => byte
    case Named(byte) => byte
    case Hex(high, low) => HexDigit(high).value * 16 + HexDigit(low).value
    case Octal(digits) => OctalValue(digits)
  }

  function EscapeLetter(byte: Byte): Byte {
    if byte == 0x0A then 'n' as int
    else if byte == 0x0D then 'r' as int
    else if byte == 0x09 then 't' as int
    else BACKSLASH
  }

  /** How a piece is written. */
  function Written(piece: Piece): (written: Bytes)
    ensures written != []
  {
    match piece
    case Plain(byte) => [byte]
    case Named(byte) => [BACKSLASH, EscapeLetter(byte)]
    case Hex(high, low) => [BACKSLASH, 'x' as int, high, low]
    case Octal(digits) => [BACKSLASH] + digits
  }

  function Spelling(pieces: seq<Piece>): Bytes {
    if pieces == [] then [] else Written(pieces[0]) + Spelling(pieces[1..])
  }

  /** Valid pieces, and no short octal escape in front of another octal digit. */
  predicate WellSpelled(pieces: seq<Piece>) {
    && (forall i :: 0 <= i < |pieces| ==> ValidPiece(pieces[i]))
    && (forall i :: 0 <= i < |pieces| - 1 && pieces[i].Octal? && |pieces[i].digits| < 3 ==>
          !IsOctal(Written(pieces[i + 1])[0]))
  }

  function Decoded(pieces: seq<Piece>): (bytes: Bytes)
    requires forall i :: 0 <= i < |pieces| ==> ValidPiece(pieces[i])
    ensures |bytes| == |pieces| && forall i :: 0 <= i < |pieces| ==> bytes[i] == ByteOf(pieces[i])
  {
    if pieces == [] then [] else Decoded(Init(pieces)) + [ByteOf(Last(pieces))]
  }

  /** How many octal digits, at most `limit`, the bytes start with. */
  function OctalRun(bytes: Bytes, limit: nat): (n: nat)
    ensures n <= limit && n <= |bytes|
    ensures forall i :: 0 <= i < n ==> IsOctal(bytes[i])
    ensures n < limit && n < |bytes| ==> !IsOctal(bytes[n])
  {
    if limit == 0 || bytes == [] || !IsOctal(bytes[0]) then 0 else 1 + OctalRun(bytes[1..], limit - 1)
  }

  /** The piece the encoding starts with. */
  function FirstPiece(encoded: Bytes): (piece: Option<Piece>)
    requires encoded != []
    ensures piece.Some? ==> ValidPiece(piece.value) && Written(piece.value) <= encoded
  {
    if encoded[0] != BACKSLASH then Some(Plain(encoded[0]))
    else if |encoded| == 1 then None
    else
      var escaped := encoded[1];
      if escaped == BACKSLASH then Some(Named(BACKSLASH))
      else if Is(escaped, 'n') then Some(Named(0x0A))
      else if Is(escaped, 'r') then Some(Named(0x0D))
      else if Is(escaped, 't') then Some(Named(0x09))
      else if Is(escaped, 'x') then
        if |encoded| >= 4 && HexDigit(encoded[2]).Some? && HexDigit(encoded[3]).Some?
        then Some(Hex(encoded[2], encoded[3])) else None
      else if IsDigit(escaped) then
        var n := OctalRun(encoded[1..], 3);
        var digits := encoded[1..][..n];
        if n > 0 && OctalValue(digits) < 256 then Some(Octal(digits)) else None
      else None
  }

  function PiecesOf(encoded: Bytes): Option<seq<Piece>> {
    if encoded == [] then Some([])
    else
      match FirstPiece(encoded)
      case None => None
      case Some(piece) =>
        match PiecesOf(encoded[|Written(piece)|..])
        case None => None
        case Some(rest) => Some([piece] + rest)
  }

  /** Nothing behind the piece can be read as part of it. */
  predicate Ends(piece: Piece, rest: Bytes) {
    piece.Octal? && |piece.digits| < 3 && rest != [] ==> !IsOctal(rest[0])
  }

  lemma {:induction false} OctalRunStops(digits: Bytes, rest: Bytes, limit: nat)
    requires |digits| <= limit && AllOctal(digits)
    requires |digits| < limit && rest != [] ==> !IsOctal(rest[0])
    ensures OctalRun(digits + rest, limit) == |digits|
  {
    if digits == [] {
      assert digits + rest == rest;
    } else {
      assert (digits + rest)[1..] == digits[1..] + rest && (digits + rest)[0] == digits[0];
      OctalRunStops(digits[1..], rest, limit - 1);
    }
  }

  lemma OctalIsRead(digits: Bytes, rest: Bytes)
    requires ValidPiece(Octal(digits)) && Ends(Octal(digits), rest)
    ensures FirstPiece(Written(Octal(digits)) + rest) == Some(Octal(digits))
  {
    var encoded := [BACKSLASH] + digits + rest;
    assert encoded[1..] == digits + rest;
    OctalRunStops(digits, rest, 3);
    assert encoded[1..][..|digits|] == digits;
    assert encoded[1] == digits[0] && IsOctal(digits[0]);
  }

  lemma HexIsRead(high: Byte, low: Byte, rest: Bytes)
    requires ValidPiece(Hex(high, low))
    ensures FirstPiece(Written(Hex(high, low)) + rest) == Some(Hex(high, low))
  {
    var encoded := [BACKSLASH, 'x' as int, high, low] + rest;
    assert encoded[0] == BACKSLASH && encoded[1] == 'x' as int && encoded[2] == high && encoded[3] == low;
  }

  lemma PieceIsRead(piece: Piece, rest: Bytes)
    requires ValidPiece(piece) && Ends(piece, rest)
    ensures FirstPiece(Written(piece) + rest) == Some(piece)
  {
    match piece
    case Plain(byte) =>
      assert ([byte] + rest)[0] == byte;
    case Named(byte) =>
      var encoded := [BACKSLASH, EscapeLetter(byte)] + rest;
      assert encoded[0] == BACKSLASH && encoded[1] == EscapeLetter(byte);
    case Hex(high, low) => HexIsRead(high, low, rest);
    case Octal(digits) => OctalIsRead(digits, rest);
  }

  /** A short octal escape is read up to a byte that is no octal digit. */
  lemma ReadPieceEnds(encoded: Bytes)
    requires encoded != [] && FirstPiece(encoded).Some?
    ensures Ends(FirstPiece(encoded).value, encoded[|Written(FirstPiece(encoded).value)|..])
  {
    var piece := FirstPiece(encoded).value;
    if piece.Octal? && |piece.digits| < 3 && |piece.digits| + 1 < |encoded| {
      assert encoded[1..][|piece.digits|] == encoded[|piece.digits| + 1];
    }
  }

  lemma WellSpelledPush(piece: Piece, rest: seq<Piece>)
    ensures WellSpelled([piece] + rest) <==> ValidPiece(piece) && WellSpelled(rest) && Ends(piece, Spelling(rest))
  {
    var all := [piece] + rest;
    assert forall i :: 0 <= i < |rest| ==> all[i + 1] == rest[i];
    if rest != [] {
      assert Spelling(rest)[0] == Written(rest[0])[0];
    }
    if WellSpelled(all) {
      assert ValidPiece(all[0]);
      assert rest != [] && all[0].Octal? && |all[0].digits| < 3 ==> !IsOctal(Written(all[1])[0]);
      forall i | 0 <= i < |rest| ensures ValidPiece(rest[i]) {
        assert ValidPiece(all[i + 1]);
      }
      forall i | 0 <= i < |rest| - 1 && rest[i].Octal? && |rest[i].digits| < 3
        ensures !IsOctal(Written(rest[i + 1])[0])
      {
        assert all[i + 1].Octal? && all[i + 2] == rest[i + 1];
      }
    }
  }

  lemma SpellingPush(piece: Piece, rest: seq<Piece>)
    ensures Spelling([piece] + rest) == Written(piece) + Spelling(rest)
  {
    assert ([piece] + rest)[1..] == rest;
  }

  lemma {:induction false} SpellingIsRead(pieces: seq<Piece>)
    requires WellSpelled(pieces)
    ensures PiecesOf(Spelling(pieces)) == Some(pieces)
  {
    if pieces != [] {
      var piece, rest := pieces[0], pieces[1..];
      assert [piece] + rest == pieces;
      WellSpelledPush(piece, rest);
      PieceIsRead(piece, Spelling(rest));
      SpellingIsRead(rest);
      assert Spelling(pieces)[|Written(piece)|..] == Spelling(rest);
    }
  }

  lemma {:induction false} ReadIsSpelled(encoded: Bytes)
    requires PiecesOf(encoded).Some?
    ensures WellSpelled(PiecesOf(encoded).value) && Spelling(PiecesOf(encoded).value) == encoded
    decreases |encoded|
  {
    if encoded != [] {
      var piece := FirstPiece(encoded).value;
      var tail := encoded[|Written(piece)|..];
      ReadIsSpelled(tail);
      ReadPieceEnds(encoded);
      WellSpelledPush(piece, PiecesOf(tail).value);
      SpellingPush(piece, PiecesOf(tail).value);
      assert encoded == Written(piece) + tail;
    }
  }

  /** An encoding has exactly one reading, and it is read exactly when it is well spelled. */
  lemma ReadingIsUnique(encoded: Bytes, pieces: seq<Piece>)
    ensures PiecesOf(encoded) == Some(pieces) <==> WellSpelled(pieces) && Spelling(pieces) == encoded
  {
    if PiecesOf(encoded) == Some(pieces) { ReadIsSpelled(encoded); }
    if WellSpelled(pieces) { SpellingIsRead(pieces); }
  }

  datatype Diagnostic =
    | InvalidUtf8 | InvalidItemizedRecord | InvalidEscape | InvalidProgressRecord
    | UnrecognizedRecord | TruncatedRecord | RecordTooLong | OutputTooLarge

  function CheckPath(decoded: Bytes): Result<Bytes, Diagnostic> {
    if 0 in decoded then Err(InvalidEscape) else if !ValidUtf8(decoded) then Err(InvalidUtf8) else Ok(decoded)
  }

  function Unescape(encoded: Bytes): Result<Bytes, Diagnostic> {
    match PiecesOf(encoded)
    case None => Err(InvalidEscape)
    case Some(pieces) =>
      ReadIsSpelled(encoded);
      CheckPath(Decoded(pieces))
  }

  /** A path that may be named at all. */
  predicate NamablePath(path: Bytes) {
    0 !in path && ValidUtf8(path)
  }

  /** An encoding decodes to a path exactly when it is a spelling of that path, and the path is valid UTF-8 without
      NUL. */
  lemma UnescapeExactly(encoded: Bytes, path: Bytes)
    ensures Unescape(encoded) == Ok(path) <==>
            && NamablePath(path)
            && exists pieces :: WellSpelled(pieces) && Spelling(pieces) == encoded && Decoded(pieces) == path
  {
    if PiecesOf(encoded).Some? {
      ReadIsSpelled(encoded);
    }
    if pieces :| WellSpelled(pieces) && Spelling(pieces) == encoded && Decoded(pieces) == path {
      SpellingIsRead(pieces);
    }
  }

  function After(pieces: seq<Piece>, rest: Option<seq<Piece>>): Option<seq<Piece>> {
    if rest.Some? then Some(pieces + rest.value) else None
  }

  lemma AfterOne(here: Bytes, pieces: seq<Piece>)
    requires here != []
    ensures
      match FirstPiece(here)
      case None => PiecesOf(here) == None
      case Some(piece) =>
        After(pieces, PiecesOf(here)) == After(pieces + [piece], PiecesOf(here[|Written(piece)|..]))
  {
    match FirstPiece(here)
    case None =>
    case Some(piece) =>
      var tail := PiecesOf(here[|Written(piece)|..]);
      if tail.Some? {
        assert pieces + ([piece] + tail.value) == pieces + [piece] + tail.value;
      }
  }

  /** One escape of `unescape_path`, at the byte behind the backslash. */
  method ReadEscape(encoded: Bytes, at: nat) returns (byte: Option<Byte>, next: nat)
    requires 0 < at < |encoded| && encoded[at - 1] == BACKSLASH
    ensures
      match FirstPiece(encoded[at - 1..])
      case None => byte == None
      case Some(piece) => byte == Some(ByteOf(piece)) && next == at - 1 + |Written(piece)|
  {
    ghost var here := encoded[at - 1..];
    var escaped := encoded[at];
    next := at + 1;
    if escaped == BACKSLASH {
      return Some(BACKSLASH), next;
    } else if Is(escaped, 'n') {
      return Some(0x0A), next;
    } else if Is(escaped, 'r') {
      return Some(0x0D), next;
    } else if Is(escaped, 't') {
      return Some(0x09), next;
    } else if Is(escaped, 'x') {
      if at + 2 >= |encoded| {
        return None, next;
      }
      var high, low := HexDigit(encoded[at + 1]), HexDigit(encoded[at + 2]);
      assert here[2] == encoded[at + 1] && here[3] == encoded[at + 2];
      if high == None || low == None {
        return None, next;
      }
      return Some(high.value * 16 + low.value), at + 3;
    } else if IsDigit(escaped) {
      byte, next := ReadOctal(encoded, at);
      assert here[1..] == encoded[at..];
    } else {
      return None, next;
    }
  }

  /** One turn of `unescape_path`: a byte that stands for itself, or an escape. */
  method ReadPiece(encoded: Bytes, index: nat) returns (byte: Option<Byte>, next: nat)
    requires index < |encoded|
    ensures
      match FirstPiece(encoded[index..])
      case None => byte == None
      case Some(piece) => byte == Some(ByteOf(piece)) && next == index + |Written(piece)|
  {
    next := index + 1;
    if encoded[index] != BACKSLASH {
      byte := Some(encoded[index]);
    } else if next >= |encoded| {
      byte := None;
    } else {
      byte, next := ReadEscape(encoded, next);
    }
  }

  lemma DecodedPush(pieces: seq<Piece>, piece: Piece)
    requires (forall i :: 0 <= i < |pieces| ==> ValidPiece(pieces[i])) && ValidPiece(piece)
    ensures forall i :: 0 <= i < |pieces + [piece]| ==> ValidPiece((pieces + [piece])[i])
    ensures Decoded(pieces + [piece]) == Decoded(pieces) + [ByteOf(piece)]
  {
    assert Init(pieces + [piece]) == pieces;
  }

  /** The octal loop of `unescape_path`; overflow of the byte is an error as soon as it happens. */
  method ReadOctal(encoded: Bytes, at: nat) returns (byte: Option<Byte>, next: nat)
    requires at < |encoded|
    ensures
      var digits := encoded[at..][..OctalRun(encoded[at..], 3)];
      if digits != [] && OctalValue(digits) < 256
      then byte == Some(OctalValue(digits)) && next == at + |digits|
      else byte == None
  {
    ghost var n := OctalRun(encoded[at..], 3);
    ghost var all := encoded[at..][..n];
    var value: nat := 0;
    var digits: nat := 0;
    next := at;
    while digits < 3
      invariant digits <= n && value < 256 && value == OctalValue(all[..digits])
    {
      if at + digits >= |encoded| || !IsOctal(encoded[at + digits]) {
        break;
      }
      assert encoded[at..][digits] == encoded[at + digits];
      assert digits < n;
      OctalGrows(all, digits);
      value := value * 8 + DigitValue(encoded[at + digits]);
      if value > 255 {
        return None, at;
      }
      digits := digits + 1;
    }
    assert digits == n && all[..digits] == all;
    if digits == 0 {
      return None, at;
    }
    return Some(value), at + digits;
  }

  lemma OctalGrows(all: Bytes, i: nat)
    requires i < |all| && AllOctal(all)
    ensures OctalValue(all[..i + 1]) == OctalValue(all[..i]) * 8 + DigitValue(all[i])
    ensures OctalValue(all[..i + 1]) <= OctalValue(all)
  {
    assert Init(all[..i + 1]) == all[..i] && Last(all[..i + 1]) == all[i];
    OctalPrefix(all, i + 1);
  }

  lemma {:induction false} OctalPrefix(all: Bytes, i: nat)
    requires i <= |all| && AllOctal(all)
    ensures OctalValue(all[..i]) <= OctalValue(all)
  {
    if i < |all| {
      OctalPrefix(Init(all), i);
      assert Init(all)[..i] == all[..i];
    } else {
      assert all[..i] == all;
    }
  }

  /** `unescape_path`. */
  method UnescapePath(encoded: Bytes) returns (result: Result<Bytes, Diagnostic>)
    ensures result == Unescape(encoded)
  {
    var decoded: Bytes := [];
    var index: nat := 0;
    ghost var pieces: seq<Piece> := [];
    NothingRead(encoded);
    while index < |encoded|
      invariant index <= |encoded|
      invariant forall i :: 0 <= i < |pieces| ==> ValidPiece(pieces[i])
      invariant decoded == Decoded(pieces)
      invariant PiecesOf(encoded) == After(pieces, PiecesOf(encoded[index..]))
      decreases |encoded| - index
    {
      ghost var here := encoded[index..];
      AfterOne(here, pieces);
      var byte, next := ReadPiece(encoded, index);
      if byte == None {
        return Err(InvalidEscape);
      }
      ghost var piece := FirstPiece(here).value;
      assert here[|Written(piece)|..] == encoded[next..];
      DecodedPush(pieces, piece);
      decoded, index, pieces := decoded + [byte.value], next, pieces + [piece];
    }
    AllRead(encoded, pieces, index);
    result := CheckPath(decoded);
  }

  lemma NothingRead(encoded: Bytes)
    ensures PiecesOf(encoded) == After([], PiecesOf(encoded[0..]))
  {
    assert encoded[0..] == encoded;
    if PiecesOf(encoded).Some? {
      assert [] + PiecesOf(encoded).value == PiecesOf(encoded).value;
    }
  }

  lemma AllRead(encoded: Bytes, pieces: seq<Piece>, index: nat)
    requires index == |encoded| && PiecesOf(encoded) == After(pieces, PiecesOf(encoded[index..]))
    ensures PiecesOf(encoded) == Some(pieces)
  {
    assert encoded[index..] == [];
    assert pieces + [] == pieces;
  }

  // ----- Lines -----

  datatype Output =
    | Itemized(code: Bytes, path: Bytes)
    | Progress(completedBytes: U64, percent: nat)
    | Reported(diagnostic: Diagnostic)

  /** The line without one trailing carriage return. */
  function StripReturn(line: Bytes): Bytes {
    if line != [] && Last(line) == 0x0D then Init(line) else line
  }

  const KNOWN_LINES: seq<string> := ["sending incremental file list", "receiving incremental file list"]

  const KNOWN_STARTS: seq<string> := [
    "building file list", "created directory ", "sent ", "total size is ", "delta-transmission enabled",
    "Number of files: ", "Number of created files: ", "Number of deleted files: ",
    "Number of regular files transferred: ", "Total file size: ", "Total transferred file size: ",
    "Literal data: ", "Matched data: ", "File list size: ", "File list generation time: ",
    "File list transfer time: ", "Total bytes sent: ", "Total bytes received: ", "sent_bytes=", "received_bytes="]

  predicate KnownInfo(line: Bytes) {
    || (exists i :: 0 <= i < |KNOWN_LINES| && Spells(line, KNOWN_LINES[i]))
    || (exists i :: 0 <= i < |KNOWN_STARTS| && StartsWith(line, KNOWN_STARTS[i]))
  }

  predicate CodeStart(byte: Byte) {
    Is(byte, '>') || Is(byte, '<') || Is(byte, 'c') || Is(byte, 'h') || Is(byte, '.') || Is(byte, '*')
  }

  predicate CodeKind(byte: Byte) {
    Is(byte, 'f') || Is(byte, 'd') || Is(byte, 'L') || Is(byte, 'D') || Is(byte, 'S')
  }

  predicate CodeFlag(byte: Byte) {
    || Is(byte, '.') || Is(byte, '+') || Is(byte, 'c') || Is(byte, 's')
    || Is(byte, 't') || Is(byte, 'p') || Is(byte, 'o')
    || Is(byte, 'g') || Is(byte, 'u') || Is(byte, 'n') || Is(byte, 'a') || Is(byte, 'x') || Is(byte, '?')
  }

  predicate ValidCode(code: Bytes) {
    |code| == 11 && CodeStart(code[0]) && CodeKind(code[1]) && forall i :: 2 <= i < 11 ==> CodeFlag(code[i])
  }

  predicate LooksItemized(line: Bytes) {
    (line != [] && CodeStart(line[0])) || StartsWith(line, "*deleting")
  }

  /** How many bytes come before the first whitespace. */
  function WordLength(line: Bytes): (n: nat)
    ensures n <= |line|
    ensures forall i :: 0 <= i < n ==> !Whitespace(line[i])
    ensures n < |line| ==> Whitespace(line[n])
  {
    if line == [] || Whitespace(line[0]) then 0 else 1 + WordLength(line[1..])
  }

  function GapLength(line: Bytes): (n: nat)
    ensures n <= |line|
    ensures forall i :: 0 <= i < n ==> Whitespace(line[i])
    ensures n < |line| ==> !Whitespace(line[n])
  {
    if line == [] || !Whitespace(line[0]) then 0 else 1 + GapLength(line[1..])
  }

  /** `split_itemized_line`: the code and the encoded path. */
  function SplitItemized(line: Bytes): Option<(Bytes, Bytes)> {
    var separator := WordLength(line);
    if separator == |line| then None
    else
      var code := line[..separator];
      if !ValidUtf8(code) || !ValidCode(code) then None
      else
        var offset := GapLength(line[separator..]);
        if separator + offset == |line| then None else Some((code, line[separator + offset..]))
  }

  /** The words of a line: `split_ascii_whitespace`. */
  function Fields(line: Bytes): seq<Bytes>
    decreases |line|
  {
    if line == [] then []
    else if Whitespace(line[0]) then Fields(line[1..])
    else
      var n := WordLength(line);
      [line[..n]] + Fields(line[n..])
  }

  function WithoutCommas(text: Bytes): Bytes {
    if text == [] then []
    else WithoutCommas(Init(text)) + if Is(Last(text), ',') then [] else [Last(text)]
  }

  function DigitsValue(text: Bytes): Option<nat> {
    if text == [] then Some(0)
    else if !IsDigit(Last(text)) then None
    else
      match DigitsValue(Init(text))
      case None => None
      case Some(before) => Some(before * 10 + DigitValue(Last(text)))
  }

  /** `str::parse` for an unsigned integer below `bound`: an optional `+`, then digits. */
  function ParseUnsigned(text: Bytes, bound: nat): (value: Option<nat>)
    ensures value.Some? ==> value.value < bound
  {
    var digits := if text != [] && Is(text[0], '+') then text[1..] else text;
    var value := DigitsValue(digits);
    if digits == [] || value == None || value.value >= bound then None else value
  }

  function ParseProgress(line: Bytes): Option<Output> {
    var fields := Fields(line);
    if !ValidUtf8(line) || |fields| < 2 then None
    else
      var completed := ParseUnsigned(WithoutCommas(fields[0]), TWO_TO_THE_64);
      if completed == None || fields[1] == [] || !Is(Last(fields[1]), '%') then None
      else
        var percent := ParseUnsigned(Init(fields[1]), 256);
        if percent == None || percent.value > 100 then None
        else Some(Progress(completed.value, percent.value))
  }

  function ParseItemized(line: Bytes): Output {
    match SplitItemized(line)
    case None => Reported(InvalidItemizedRecord)
    case Some((code, encoded)) =>
      match Unescape(encoded)
      case Err(diagnostic) => Reported(diagnostic)
      case Ok(path) => if path == [] then Reported(InvalidItemizedRecord) else Itemized(code, path)
  }

  /** `parse_line`. */
  function ParseLine(line: Bytes): (outputs: seq<Output>)
    ensures |outputs| <= 1
  {
    var text := StripReturn(line);
    if text == [] || KnownInfo(text) then []
    else if LooksItemized(text) then [ParseItemized(text)]
    else if '%' as int in text then
      match ParseProgress(text)
      case Some(progress) => [progress]
      case None => [Reported(InvalidProgressRecord)]
    else [Reported(UnrecognizedRecord)]
  }

  /** The text is a code, some whitespace, and an encoding that does not start with whitespace. */
  predicate Laid(text: Bytes, code: Bytes, gap: Bytes, encoded: Bytes) {
    && text == code + gap + encoded && ValidCode(code)
    && gap != [] && (forall i :: 0 <= i < |gap| ==> Whitespace(gap[i]))
    && encoded != [] && !Whitespace(encoded[0])
  }

  lemma CodeIsPlain(code: Bytes)
    requires ValidCode(code)
    ensures ValidUtf8(code) && forall i :: 0 <= i < |code| ==> !Whitespace(code[i])
  {
    AsciiIsUtf8(code);
  }

  lemma WordThenGap(word: Bytes, rest: Bytes)
    requires forall i :: 0 <= i < |word| ==> !Whitespace(word[i])
    requires rest != [] && Whitespace(rest[0])
    ensures WordLength(word + rest) == |word|
  {
    var n := WordLength(word + rest);
    assert (word + rest)[|word|] == rest[0];
    assert forall i :: 0 <= i < |word| ==> (word + rest)[i] == word[i];
  }

  lemma GapThenWord(gap: Bytes, rest: Bytes)
    requires forall i :: 0 <= i < |gap| ==> Whitespace(gap[i])
    requires rest != [] && !Whitespace(rest[0])
    ensures GapLength(gap + rest) == |gap|
  {
    var n := GapLength(gap + rest);
    assert (gap + rest)[|gap|] == rest[0];
    assert forall i :: 0 <= i < |gap| ==> (gap + rest)[i] == gap[i];
  }

  lemma LaidIsSplit(text: Bytes, code: Bytes, gap: Bytes, encoded: Bytes)
    requires Laid(text, code, gap, encoded)
    ensures SplitItemized(text) == Some((code, encoded))
  {
    var rest := gap + encoded;
    CodeIsPlain(code);
    assert text == code + rest;
    WordThenGap(code, rest);
    assert text[..|code|] == code && text[|code|..] == rest;
    GapThenWord(gap, encoded);
    assert text[|code| + |gap|..] == encoded;
  }

  lemma SplitIsLaid(text: Bytes) returns (gap: Bytes)
    requires SplitItemized(text).Some?
    ensures Laid(text, SplitItemized(text).value.0, gap, SplitItemized(text).value.1)
  {
    var n := WordLength(text);
    var rest := text[n..];
    gap := rest[..GapLength(rest)];
    assert text == text[..n] + rest;
    assert rest == gap + text[n + |gap|..];
    assert text[n] == rest[0];
  }

  /** Splitting finds the code and the encoding exactly in lines laid out that way. */
  lemma SplitExactly(text: Bytes, code: Bytes, encoded: Bytes)
    ensures SplitItemized(text) == Some((code, encoded)) <==> exists gap :: Laid(text, code, gap, encoded)
  {
    if SplitItemized(text) == Some((code, encoded)) {
      var gap := SplitIsLaid(text);
    }
    if gap :| Laid(text, code, gap, encoded) {
      LaidIsSplit(text, code, gap, encoded);
    }
  }

  lemma KnownStartsDiffer(k: nat)
    requires k < |KNOWN_STARTS|
    ensures |KNOWN_STARTS[k]| >= 2
    ensures KNOWN_STARTS[k][0] in "bstdNTLMFr" || KNOWN_STARTS[k][..2] == "cr"
  {
    assert KNOWN_STARTS[1][..2] == "cr";
    assert k == 0 || k == 1 || k == 2 || k == 3 || k == 4 || k == 5 || k == 6 || k == 7 || k == 8 || k == 9 || k == 10
           || k == 11 || k == 12 || k == 13 || k == 14 || k == 15 || k == 16 || k == 17 || k == 18 || k == 19;
  }

  lemma StartsAt(line: Bytes, text: string, i: nat)
    requires i < |text|
    ensures StartsWith(line, text) ==> i < |line| && Is(line[i], text[i])
  {
  }

  /** A line that starts with a valid code is not one of the known informational lines. */
  lemma CodeIsNotInfo(text: Bytes)
    requires |text| >= 2 && CodeStart(text[0]) && CodeKind(text[1])
    ensures !KnownInfo(text)
  {
    forall k | 0 <= k < |KNOWN_STARTS| ensures !StartsWith(text, KNOWN_STARTS[k]) {
      KnownStartsDiffer(k);
      StartsAt(text, KNOWN_STARTS[k], 0);
      StartsAt(text, KNOWN_STARTS[k], 1);
    }
    assert KNOWN_LINES[0][0] == 's' && KNOWN_LINES[1][0] == 'r';
  }

  lemma LaidIsItemized(line: Bytes, code: Bytes, gap: Bytes, pieces: seq<Piece>)
    requires WellSpelled(pieces) && Laid(StripReturn(line), code, gap, Spelling(pieces))
    requires Decoded(pieces) != [] && NamablePath(Decoded(pieces))
    ensures ParseLine(line) == [Itemized(code, Decoded(pieces))]
  {
    var text := StripReturn(line);
    LaidIsSplit(text, code, gap, Spelling(pieces));
    UnescapeExactly(Spelling(pieces), Decoded(pieces));
    assert text[0] == code[0] && text[1] == code[1];
    CodeIsNotInfo(text);
    assert ParseItemized(text) == Itemized(code, Decoded(pieces));
  }

  lemma ItemizedIsLaid(line: Bytes, code: Bytes, path: Bytes) returns (gap: Bytes, pieces: seq<Piece>)
    requires Itemized(code, path) in ParseLine(line)
    ensures path != [] && NamablePath(path)
    ensures WellSpelled(pieces) && Laid(StripReturn(line), code, gap, Spelling(pieces)) && Decoded(pieces) == path
  {
    var text := StripReturn(line);
    assert ParseItemized(text) == Itemized(code, path);
    gap := SplitIsLaid(text);
    var encoded := SplitItemized(text).value.1;
    UnescapeExactly(encoded, path);
    pieces :| WellSpelled(pieces) && Spelling(pieces) == encoded && Decoded(pieces) == path;
  }

  /** The line, without its carriage return, is a valid code, whitespace, and a spelling of a non-empty path that is
      valid UTF-8 without NUL. */
  predicate ItemizedLine(line: Bytes, code: Bytes, gap: Bytes, pieces: seq<Piece>, path: Bytes) {
    && WellSpelled(pieces) && Laid(StripReturn(line), code, gap, Spelling(pieces))
    && Decoded(pieces) == path && path != [] && NamablePath(path)
  }

  /** A line yields an itemized record exactly when it is such a line; nothing else becomes an action. */
  lemma ItemizedExactly(line: Bytes, code: Bytes, path: Bytes)
    ensures Itemized(code, path) in ParseLine(line) <==>
            exists gap, pieces :: ItemizedLine(line, code, gap, pieces, path)
  {
    if Itemized(code, path) in ParseLine(line) {
      var gap, pieces := ItemizedIsLaid(line, code, path);
      assert ItemizedLine(line, code, gap, pieces, path);
    }
    if gap, pieces :| ItemizedLine(line, code, gap, pieces, path) {
      LaidIsItemized(line, code, gap, pieces);
    }
  }

  // ----- Round trip -----

  function HexLetter(n: nat): Byte
    requires n < 16
  {
    if n < 10 then '0' as int + n else 'a' as int + (n - 10)
  }

  function HexPieces(path: Bytes): (pieces: seq<Piece>)
    ensures |pieces| == |path|
    ensures forall i :: 0 <= i < |path| ==> pieces[i] == Hex(HexLetter(path[i] / 16), HexLetter(path[i] % 16))
  {
    if path == [] then [] else HexPieces(Init(path)) + [Hex(HexLetter(Last(path) / 16), HexLetter(Last(path) % 16))]
  }

  lemma HexPiecesSpell(path: Bytes)
    ensures WellSpelled(HexPieces(path)) && Decoded(HexPieces(path)) == path
  {
    var pieces := HexPieces(path);
    forall i | 0 <= i < |path| ensures ValidPiece(pieces[i]) && ByteOf(pieces[i]) == path[i] {
    }
  }

  lemma {:induction false} SpellingEnds(pieces: seq<Piece>)
    requires pieces != []
    ensures Spelling(pieces) != [] && Last(Spelling(pieces)) == Last(Written(Last(pieces)))
    ensures Spelling(pieces)[0] == Written(pieces[0])[0]
  {
    if |pieces| > 1 {
      SpellingEnds(pieces[1..]);
    }
  }

  lemma HexLineIsLaid(code: Bytes, encoded: Bytes)
    requires ValidCode(code) && encoded != [] && !Whitespace(encoded[0]) && !Whitespace(Last(encoded))
    ensures StripReturn(code + [0x20] + encoded) == code + [0x20] + encoded
    ensures Laid(code + [0x20] + encoded, code, [0x20], encoded)
  {
    assert Last(code + [0x20] + encoded) == Last(encoded);
  }

  /** Every path that can be named survives: a valid code, a space and the fully hex-escaped path parse back to it. */
  lemma ItemizedRoundTrip(code: Bytes, path: Bytes)
    requires ValidCode(code) && path != [] && NamablePath(path)
    ensures ParseLine(code + [0x20] + Spelling(HexPieces(path))) == [Itemized(code, path)]
  {
    var pieces := HexPieces(path);
    HexPiecesSpell(path);
    SpellingEnds(pieces);
    HexLineIsLaid(code, Spelling(pieces));
    LaidIsItemized(code + [0x20] + Spelling(pieces), code, [0x20], pieces);
  }

  // ----- Progress -----

  /** A number as rsync prints it. */
  function Printed(n: nat): (digits: Bytes)
    ensures digits != [] && AllDigits(digits)
  {
    var text := Decimal(n);
    seq(|text|, i requires 0 <= i < |text| => text[i] as int)
  }

  lemma {:induction false} PrintedValue(n: nat)
    ensures DigitsValue(Printed(n)) == Some(n)
  {
    if n < 10 {
      assert Init(Printed(n)) == [];
    } else {
      PrintedValue(n / 10);
      assert Init(Printed(n)) == Printed(n / 10) && Last(Printed(n)) == n % 10 + '0' as int;
    }
  }

  lemma PrintedIsParsed(n: nat, bound: nat)
    requires n < bound
    ensures ParseUnsigned(Printed(n), bound) == Some(n)
  {
    PrintedValue(n);
    assert IsDigit(Printed(n)[0]);
  }

  predicate AllDigits(text: Bytes) {
    forall i :: 0 <= i < |text| ==> IsDigit(text[i])
  }

  lemma CommasPush(text: Bytes, byte: Byte)
    ensures WithoutCommas(text + [byte]) == WithoutCommas(text) + if Is(byte, ',') then [] else [byte]
  {
    assert Init(text + [byte]) == text;
  }

  lemma {:induction false} DigitsHaveNoCommas(digits: Bytes)
    requires AllDigits(digits)
    ensures WithoutCommas(digits) == digits
  {
    if digits != [] {
      var most, last := Init(digits), digits[|digits| - 1];
      assert IsDigit(last) && digits == most + [last];
      DigitsHaveNoCommas(most);
      CommasPush(most, last);
    }
  }

  lemma FieldsOfWord(word: Bytes, rest: Bytes)
    requires word != [] && (forall i :: 0 <= i < |word| ==> !Whitespace(word[i])) && rest != [] && Whitespace(rest[0])
    ensures Fields(word + rest) == [word] + Fields(rest[1..])
  {
    WordThenGap(word, rest);
    assert (word + rest)[0] == word[0] && (word + rest)[..|word|] == word && (word + rest)[|word|..] == rest;
  }

  /** A progress line as rsync prints it: a byte count, a percentage, and more text behind a blank. */
  function ProgressLine(completed: nat, percent: nat, rest: Bytes): Bytes {
    Printed(completed) + [0x20] + (Printed(percent) + ['%' as int] + [0x20] + rest)
  }

  lemma DigitIsNotBlank(text: Bytes)
    requires AllDigits(text)
    ensures forall i :: 0 <= i < |text| ==> !Whitespace(text[i])
  {
    forall i | 0 <= i < |text| ensures !Whitespace(text[i]) {
      assert IsDigit(text[i]);
    }
  }

  lemma FieldsOfProgress(completed: nat, percent: nat, rest: Bytes)
    ensures
      var fields := Fields(ProgressLine(completed, percent, rest));
      |fields| >= 2 && fields[0] == Printed(completed) && fields[1] == Printed(percent) + ['%' as int]
  {
    var first, second := Printed(completed), Printed(percent) + ['%' as int];
    var tail := [0x20] + rest;
    DigitIsNotBlank(first);
    DigitIsNotBlank(Printed(percent));
    assert ProgressLine(completed, percent, rest) == first + ([0x20] + (second + tail));
    FieldsOfWord(first, [0x20] + (second + tail));
    assert ([0x20] + (second + tail))[1..] == second + tail;
    FieldsOfWord(second, tail);
  }

  lemma ProgressIsParsed(completed: nat, percent: nat, rest: Bytes)
    requires completed < TWO_TO_THE_64 && percent <= 100 && ValidUtf8(ProgressLine(completed, percent, rest))
    ensures ParseProgress(ProgressLine(completed, percent, rest)) == Some(Progress(completed, percent))
  {
    FieldsOfProgress(completed, percent, rest);
    DigitsHaveNoCommas(Printed(completed));
    PrintedIsParsed(completed, TWO_TO_THE_64);
    PrintedIsParsed(percent, 256);
    assert Init(Printed(percent) + ['%' as int]) == Printed(percent);
  }

  lemma DigitIsNotInfo(text: Bytes)
    requires text != [] && IsDigit(text[0])
    ensures !KnownInfo(text) && !LooksItemized(text)
  {
    forall k | 0 <= k < |KNOWN_STARTS| ensures !StartsWith(text, KNOWN_STARTS[k]) {
      KnownStartsDiffer(k);
      StartsAt(text, KNOWN_STARTS[k], 0);
    }
    assert KNOWN_LINES[0][0] == 's' && KNOWN_LINES[1][0] == 'r';
    assert "*deleting"[0] == '*';
  }

  /** A progress line parses to its byte count and percentage, for every count below 2^64 and percentage up to 100. */
  lemma ProgressRoundTrip(completed: nat, percent: nat, rest: Bytes)
    requires completed < TWO_TO_THE_64 && percent <= 100
    requires rest != [] && Last(rest) != 0x0D && ValidUtf8(ProgressLine(completed, percent, rest))
    ensures ParseLine(ProgressLine(completed, percent, rest)) == [Progress(completed, percent)]
  {
    var line := ProgressLine(completed, percent, rest);
    assert Last(line) == Last(rest) && StripReturn(line) == line;
    assert line[0] == Printed(completed)[0] && IsDigit(line[0]);
    DigitIsNotInfo(line);
    assert line[|Printed(completed)| + 1 + |Printed(percent)|] == '%' as int;
    ProgressIsParsed(completed, percent, rest);
  }

  /** Nothing a line says as progress is out of range. */
  lemma ProgressIsInRange(line: Bytes, output: Output)
    requires output in ParseLine(line) && output.Progress?
    ensures output.percent <= 100 && output.completedBytes < TWO_TO_THE_64
    ensures ValidUtf8(StripReturn(line)) && '%' as int in line
  {
  }
}
