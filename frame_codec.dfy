/** The Content-Length stdio framing shared by the observability tool server
    (`writeMessage`, `tryReadFrame`) and its end-to-end checker (`frame`,
    `parseFrames`). A frame is the header `Content-Length: <n>`, the blank-line
    separator CR LF CR LF, and exactly `n` payload bytes. Decoding works on the
    raw bytes: CR, LF and ':' never occur inside a multi-byte UTF-8 sequence,
    and no non-ASCII character lower-cases into "content-length:", so searching,
    splitting and case folding the bytes gives what `server.mjs` and the
    end-to-end checker get on the decoded header text. */
module FrameCodec {
  import opened Wrappers
  import opened Seqs
  import opened Encoding

  const CRLF: seq<Byte> := [13, 10]
  const SEPARATOR: seq<Byte> := [13, 10, 13, 10]
  const COLON: seq<Byte> := [58]
  /** "Content-Length: " in ASCII. */
  const LENGTH_PREFIX: seq<Byte> := [67, 111, 110, 116, 101, 110, 116, 45, 76, 101, 110, 103, 116, 104, 58, 32]
  /** "content-length:" in ASCII: what a header line must start with, ignoring case. */
  const LENGTH_KEY: seq<Byte> := [99, 111, 110, 116, 101, 110, 116, 45, 108, 101, 110, 103, 116, 104, 58]

  // ---------------------------------------------------------------- encoder

  /** The header text put before a payload of `n` bytes. */
  function HeaderText(n: nat): string
  {
    "Content-Length: " + Decimal(n) + "\r\n\r\n"
  }

  /** The frame around a JSON text, as a string (`frame`, and what
      `writeMessage` writes): the announced length is the payload's UTF-8 byte
      count, not its character count. */
  function FrameText(payload: string): string
  {
    HeaderText(|Utf8(payload)|) + payload
  }

  /** The frame around payload bytes, as bytes: the ASCII header announcing
      `|payload|`, then the payload. */
  function EncodeFrame(payload: seq<Byte>): seq<Byte>
  {
    LENGTH_PREFIX + Utf8(Decimal(|payload|)) + SEPARATOR + payload
  }

  /** The frames of several payloads, back to back. */
  function EncodeFrames(payloads: seq<seq<Byte>>): seq<Byte>
  {
    if payloads == [] then [] else EncodeFrame(payloads[0]) + EncodeFrames(payloads[1..])
  }

  lemma PrefixBytes(pre: string)
    requires pre == "Content-Length: "
    ensures Utf8(pre) == LENGTH_PREFIX
  {
    assert IsAscii(pre);
    Utf8Ascii(pre);
    var u := Utf8(pre);
    assert u[0] == 67; assert u[1] == 111; assert u[2] == 110; assert u[3] == 116;
    assert u[4] == 101; assert u[5] == 110; assert u[6] == 116; assert u[7] == 45;
    assert u[8] == 76; assert u[9] == 101; assert u[10] == 110; assert u[11] == 103;
    assert u[12] == 116; assert u[13] == 104; assert u[14] == 58; assert u[15] == 32;
  }

  lemma SeparatorBytes(sep: string)
    requires sep == "\r\n\r\n"
    ensures Utf8(sep) == SEPARATOR
  {
    assert IsAscii(sep);
    Utf8Ascii(sep);
  }

  lemma HeaderParts(n: nat, pre: string, sep: string)
    requires pre == "Content-Length: " && sep == "\r\n\r\n"
    ensures Utf8(pre + Decimal(n) + sep) == LENGTH_PREFIX + Utf8(Decimal(n)) + SEPARATOR
  {
    Utf8Concat(pre + Decimal(n), sep);
    Utf8Concat(pre, Decimal(n));
    PrefixBytes(pre);
    SeparatorBytes(sep);
  }

  /** The header's bytes: the ASCII prefix, the decimal digits, the separator. */
  lemma HeaderBytes(n: nat)
    ensures Utf8(HeaderText(n)) == LENGTH_PREFIX + Utf8(Decimal(n)) + SEPARATOR
  {
    HeaderParts(n, "Content-Length: ", "\r\n\r\n");
  }

  /** Writing the frame text of a JSON text puts on the wire exactly the
      header announcing the payload's byte count, then the payload's bytes. */
  lemma {:induction false} FrameTextBytes(payload: string)
    ensures Utf8(FrameText(payload)) == EncodeFrame(Utf8(payload))
    ensures Utf8(FrameText(payload)) ==
            LENGTH_PREFIX + Utf8(Decimal(|Utf8(payload)|)) + SEPARATOR + Utf8(payload)
  {
    Utf8Concat(HeaderText(|Utf8(payload)|), payload);
    HeaderBytes(|Utf8(payload)|);
  }

  /** The header of an encoded frame is the UTF-8 encoding of `HeaderText`. */
  lemma EncodeFrameHeader(payload: seq<Byte>)
    ensures EncodeFrame(payload) == Utf8(HeaderText(|payload|)) + payload
  {
    HeaderBytes(|payload|);
  }

  // ---------------------------------------------------------------- decoder

  /** `toLowerCase` on an ASCII byte. */
  function LowerAscii(b: Byte): Byte
  {
    if 65 <= b <= 90 then b + 32 else b
  }

  /** `line.toLowerCase().startsWith("content-length:")`. */
  predicate IsLengthLine(line: seq<Byte>)
  {
    |line| >= |LENGTH_KEY| && forall k :: 0 <= k < |LENGTH_KEY| ==> LowerAscii(line[k]) == LENGTH_KEY[k]
  }

  /** The index of the first Content-Length line (`find`). */
  function FirstLengthLine(lines: seq<seq<Byte>>): (r: Option<nat>)
    ensures r.Some? ==> r.value < |lines| && IsLengthLine(lines[r.value])
    ensures r.Some? ==> forall j :: 0 <= j < r.value ==> !IsLengthLine(lines[j])
    ensures r.None? ==> forall j :: 0 <= j < |lines| ==> !IsLengthLine(lines[j])
  {
    if lines == [] then None
    else if IsLengthLine(lines[0]) then Some(0)
    else match FirstLengthLine(lines[1..])
      case None => None
      case Some(i) => Some(i + 1)
  }

  /** Whitespace removed by `trim`, restricted to ASCII. */
  predicate IsSpace(b: Byte)
  {
    b == 32 || 9 <= b <= 13
  }

  function TrimStart(s: seq<Byte>): (r: seq<Byte>)
    ensures IsSuffix(r, s)
    ensures r == [] || !IsSpace(r[0])
    ensures forall i :: 0 <= i < |s| - |r| ==> IsSpace(s[i])
  {
    if s != [] && IsSpace(s[0]) then TrimStart(s[1..]) else s
  }

  function TrimEnd(s: seq<Byte>): (r: seq<Byte>)
    ensures IsPrefix(r, s)
    ensures r == [] || !IsSpace(r[|r| - 1])
    ensures forall i :: |r| <= i < |s| ==> IsSpace(s[i])
  {
    if s != [] && IsSpace(s[|s| - 1]) then TrimEnd(s[..|s| - 1]) else s
  }

  function Trim(s: seq<Byte>): seq<Byte>
  {
    TrimEnd(TrimStart(s))
  }

  /** The value of `Number(text)` on trimmed text: a run of decimal digits, the
      empty text (which is 0), or anything else (NaN). */
  datatype LengthValue = Length(n: nat) | NotANumber

  function ParseLength(text: seq<Byte>): (r: LengthValue)
    ensures r.Length? <==> forall i :: 0 <= i < |text| ==> IsDigitByte(text[i])
    ensures text == [] ==> r == Length(0)
  {
    if forall i :: 0 <= i < |text| ==> IsDigitByte(text[i]) then Length(DigitsValue(text)) else NotANumber
  }

  /** What the header block says about the payload length. */
  datatype HeaderLength = NoLengthLine | Announced(value: LengthValue)

  /** Splits the header into lines, takes the first Content-Length line and
      reads the text between its first and second ':' (`split(":")[1]`). */
  function ReadHeader(header: seq<Byte>): HeaderLength
  {
    var lines := Split(header, CRLF);
    match FirstLengthLine(lines)
    case None => NoLengthLine
    case Some(i) =>
      var line := lines[i];
      assert OccursAt(line, COLON, 14) by { assert line[14..15] == [line[14]]; }
      var parts := Split(line, COLON);
      Announced(ParseLength(Trim(parts[1])))
  }

  /** One decoding step on a buffer; the consumer decides what to do with the
      buffer in each case. */
  datatype Step =
    | NeedMore                                        // no separator yet, or fewer payload bytes than announced
    | MissingLength                                   // a complete header without a Content-Length line
    | BadLength                                       // the length is not a number
    | Complete(payload: seq<Byte>, rest: seq<Byte>)   // one whole frame, and the bytes after it

  /** One frame off the front of `buf`, as `tryReadFrame` and one iteration of
      `parseFrames` take it. */
  function ReadFrame(buf: seq<Byte>): (r: Step)
    ensures IndexOf(buf, SEPARATOR).None? ==> r.NeedMore?
    ensures r.Complete? ==> |r.payload| + |r.rest| + 4 <= |buf|
  {
    match IndexOf(buf, SEPARATOR)
    case None => NeedMore
    case Some(h) =>
      match ReadHeader(buf[..h])
      case NoLengthLine => MissingLength
      case Announced(NotANumber) => BadLength
      case Announced(Length(n)) =>
        if |buf| < h + 4 + n then NeedMore
        else Complete(buf[h + 4..h + 4 + n], buf[h + 4 + n..])
  }

  /** `ReadFrame` once the separator has been found at `h`, by what the
      header says. */
  lemma ReadFrameAt(buf: seq<Byte>, h: nat)
    requires IndexOf(buf, SEPARATOR) == Some(h)
    ensures ReadHeader(buf[..h]) == NoLengthLine ==> ReadFrame(buf) == MissingLength
    ensures ReadHeader(buf[..h]) == Announced(NotANumber) ==> ReadFrame(buf) == BadLength
    ensures ReadHeader(buf[..h]).Announced? && ReadHeader(buf[..h]).value.Length? ==>
              var n := ReadHeader(buf[..h]).value.n;
              ReadFrame(buf) == if |buf| < h + 4 + n then NeedMore else Complete(buf[h + 4..h + 4 + n], buf[h + 4 + n..])
  {
  }

  /** A complete frame is a slice of the buffer: its payload is immediately
      followed by the rest, which runs to the end of the buffer. */
  lemma ReadFrameSlices(buf: seq<Byte>)
    requires ReadFrame(buf).Complete?
    ensures var r := ReadFrame(buf);
            buf[|buf| - |r.payload| - |r.rest|..] == r.payload + r.rest
  {
    var h := IndexOf(buf, SEPARATOR).value;
    var n := ReadHeader(buf[..h]).value.n;
    assert buf[h + 4..] == buf[h + 4..h + 4 + n] + buf[h + 4 + n..];
  }

  // ------------------------------------------------- what each outcome means

  /** The separator appended to `header` is the first one in `header +
      SEPARATOR`: no blank line ends inside the header. */
  predicate HeaderClosed(header: seq<Byte>)
  {
    IndexOf(header + SEPARATOR, SEPARATOR) == Some(|header|)
  }

  /** A first occurrence in `u` stays the first in any extension of `u`. */
  lemma FirstStaysFirst(u: seq<Byte>, v: seq<Byte>, i: nat)
    requires IndexOf(u, SEPARATOR) == Some(i)
    ensures IndexOf(u + v, SEPARATOR) == Some(i)
  {
    assert (u + v)[i..i + 4] == u[i..i + 4];
    forall j | 0 <= j < i ensures !OccursAt(u + v, SEPARATOR, j) {
      assert !OccursAt(u, SEPARATOR, j);
      assert (u + v)[j..j + 4] == u[j..j + 4];
    }
    IndexOfFirst(u + v, SEPARATOR, i);
  }

  /** A buffer of the form header, separator, tail, with the header closed,
      has its first separator right after the header. */
  lemma HeaderOf(buf: seq<Byte>, header: seq<Byte>, tail: seq<Byte>)
    requires buf == header + SEPARATOR + tail && HeaderClosed(header)
    ensures IndexOf(buf, SEPARATOR) == Some(|header|)
    ensures buf[..|header|] == header && buf[|header| + 4..] == tail
  {
    FirstStaysFirst(header + SEPARATOR, tail, |header|);
  }

  /** Conversely, a buffer with a separator is its header, the separator and
      a tail, with the header closed. */
  lemma SplitAtHeader(buf: seq<Byte>)
    requires IndexOf(buf, SEPARATOR).Some?
    ensures var h := IndexOf(buf, SEPARATOR).value;
            buf == buf[..h] + SEPARATOR + buf[h + 4..] && HeaderClosed(buf[..h])
  {
    var h := IndexOf(buf, SEPARATOR).value;
    var u := buf[..h + 4];
    assert u == buf[..h] + SEPARATOR;
    forall j | 0 <= j < h ensures !OccursAt(u, SEPARATOR, j) {
      assert !OccursAt(buf, SEPARATOR, j);
      assert u[j..j + 4] == buf[j..j + 4];
    }
    IndexOfFirst(u, SEPARATOR, h);
  }

  /** The closed header and the tail around the first separator. */
  lemma FirstHeader(buf: seq<Byte>) returns (header: seq<Byte>, tail: seq<Byte>)
    requires IndexOf(buf, SEPARATOR).Some?
    ensures buf == header + SEPARATOR + tail && HeaderClosed(header)
    ensures IndexOf(buf, SEPARATOR) == Some(|header|) && header == buf[..|header|]
  {
    SplitAtHeader(buf);
    var h := IndexOf(buf, SEPARATOR).value;
    header, tail := buf[..h], buf[h + 4..];
  }

  /** A complete read is exactly a buffer made of a closed header announcing
      `|p|` bytes, the separator, the payload `p` and the rest. */
  lemma CompleteIff(buf: seq<Byte>, p: seq<Byte>, rest: seq<Byte>)
    ensures ReadFrame(buf) == Complete(p, rest) <==>
      exists header :: buf == header + SEPARATOR + p + rest && HeaderClosed(header) &&
                       ReadHeader(header) == Announced(Length(|p|))
  {
    if ReadFrame(buf) == Complete(p, rest) {
      var header := CompleteHeader(buf);
    }
    if exists header :: buf == header + SEPARATOR + p + rest && HeaderClosed(header) &&
                        ReadHeader(header) == Announced(Length(|p|)) {
      var header :| buf == header + SEPARATOR + p + rest && HeaderClosed(header) &&
                     ReadHeader(header) == Announced(Length(|p|));
      CompleteOfHeader(header, p, rest);
    }
  }

  /** The header in front of a complete frame. */
  lemma CompleteHeader(buf: seq<Byte>) returns (header: seq<Byte>)
    requires ReadFrame(buf).Complete?
    ensures var r := ReadFrame(buf);
            buf == header + SEPARATOR + r.payload + r.rest && HeaderClosed(header) &&
            ReadHeader(header) == Announced(Length(|r.payload|))
  {
    SplitAtHeader(buf);
    var h := IndexOf(buf, SEPARATOR).value;
    header := buf[..h];
    ReadFrameAt(buf, h);
    var n := ReadHeader(header).value.n;
    assert buf[h + 4..] == buf[h + 4..h + 4 + n] + buf[h + 4 + n..];
  }

  /** A closed header announcing `|p|` bytes, then `p`, reads as `p`. */
  lemma CompleteOfHeader(header: seq<Byte>, p: seq<Byte>, rest: seq<Byte>)
    requires HeaderClosed(header) && ReadHeader(header) == Announced(Length(|p|))
    ensures ReadFrame(header + SEPARATOR + p + rest) == Complete(p, rest)
  {
    var buf := header + SEPARATOR + p + rest;
    HeaderOf(buf, header, p + rest);
    var h := |header|;
    ReadFrameAt(buf, h);
    assert buf[h + 4..h + 4 + |p|] == p;
    assert buf[h + 4 + |p|..] == rest;
  }

  /** A missing-length error is exactly a closed header without a
      Content-Length line, followed by the separator. */
  lemma MissingLengthIff(buf: seq<Byte>)
    ensures ReadFrame(buf) == MissingLength <==>
      exists header, tail :: buf == header + SEPARATOR + tail && HeaderClosed(header) &&
                             ReadHeader(header) == NoLengthLine
  {
    if ReadFrame(buf) == MissingLength {
      var header, tail := FirstHeader(buf);
      ReadFrameAt(buf, |header|);
    }
    if exists header, tail :: buf == header + SEPARATOR + tail && HeaderClosed(header) &&
                              ReadHeader(header) == NoLengthLine {
      var header, tail :| buf == header + SEPARATOR + tail && HeaderClosed(header) &&
                          ReadHeader(header) == NoLengthLine;
      MissingLengthOfHeader(header, tail);
    }
  }

  /** A bad-length error is exactly a closed header whose length text is not
      a number, followed by the separator. */
  lemma BadLengthIff(buf: seq<Byte>)
    ensures ReadFrame(buf) == BadLength <==>
      exists header, tail :: buf == header + SEPARATOR + tail && HeaderClosed(header) &&
                             ReadHeader(header) == Announced(NotANumber)
  {
    if ReadFrame(buf) == BadLength {
      var header, tail := FirstHeader(buf);
      ReadFrameAt(buf, |header|);
    }
    if exists header, tail :: buf == header + SEPARATOR + tail && HeaderClosed(header) &&
                              ReadHeader(header) == Announced(NotANumber) {
      var header, tail :| buf == header + SEPARATOR + tail && HeaderClosed(header) &&
                          ReadHeader(header) == Announced(NotANumber);
      BadLengthOfHeader(header, tail);
    }
  }

  /** A closed header without a Content-Length line ends in a missing-length error. */
  lemma MissingLengthOfHeader(header: seq<Byte>, tail: seq<Byte>)
    requires HeaderClosed(header) && ReadHeader(header) == NoLengthLine
    ensures ReadFrame(header + SEPARATOR + tail) == MissingLength
  {
    var buf := header + SEPARATOR + tail;
    HeaderOf(buf, header, tail);
    ReadFrameAt(buf, |header|);
  }

  /** A closed header whose length is not a number ends in a bad-length error. */
  lemma BadLengthOfHeader(header: seq<Byte>, tail: seq<Byte>)
    requires HeaderClosed(header) && ReadHeader(header) == Announced(NotANumber)
    ensures ReadFrame(header + SEPARATOR + tail) == BadLength
  {
    var buf := header + SEPARATOR + tail;
    HeaderOf(buf, header, tail);
    ReadFrameAt(buf, |header|);
  }

  /** The decoder waits exactly when no separator has arrived, or the bytes
      after a closed header are fewer than it announces. */
  lemma NeedMoreIff(buf: seq<Byte>)
    ensures ReadFrame(buf) == NeedMore <==>
      IndexOf(buf, SEPARATOR).None? ||
      exists header, tail, n: nat :: buf == header + SEPARATOR + tail && HeaderClosed(header) &&
                                     ReadHeader(header) == Announced(Length(n)) && |tail| < n
  {
    if ReadFrame(buf) == NeedMore && IndexOf(buf, SEPARATOR).Some? {
      var header, tail, n := ShortHeader(buf);
    }
    if exists header, tail, n: nat :: buf == header + SEPARATOR + tail && HeaderClosed(header) &&
                                      ReadHeader(header) == Announced(Length(n)) && |tail| < n {
      var header, tail, n: nat :| buf == header + SEPARATOR + tail && HeaderClosed(header) &&
                                  ReadHeader(header) == Announced(Length(n)) && |tail| < n;
      ShortOfHeader(header, tail, n);
    }
  }

  /** A closed header announcing more bytes than follow it makes the decoder wait. */
  lemma ShortOfHeader(header: seq<Byte>, tail: seq<Byte>, n: nat)
    requires HeaderClosed(header) && ReadHeader(header) == Announced(Length(n)) && |tail| < n
    ensures ReadFrame(header + SEPARATOR + tail) == NeedMore
  {
    var buf := header + SEPARATOR + tail;
    HeaderOf(buf, header, tail);
    ReadFrameAt(buf, |header|);
  }

  /** A wait after the separator has arrived: the header announces more
      bytes than follow it. */
  lemma ShortHeader(buf: seq<Byte>) returns (header: seq<Byte>, tail: seq<Byte>, n: nat)
    requires ReadFrame(buf) == NeedMore && IndexOf(buf, SEPARATOR).Some?
    ensures buf == header + SEPARATOR + tail && HeaderClosed(header) &&
            ReadHeader(header) == Announced(Length(n)) && |tail| < n
  {
    SplitAtHeader(buf);
    var h := IndexOf(buf, SEPARATOR).value;
    ReadFrameAt(buf, h);
    header, tail := buf[..h], buf[h + 4..];
    n := ReadHeader(header).value.n;
  }

  // ------------------------------------------------------------- round trip

  /** A pattern whose first element does not occur in `s` does not occur in `s`. */
  lemma AbsentFirst(s: seq<Byte>, pat: seq<Byte>)
    requires |pat| > 0
    requires forall i :: 0 <= i < |s| ==> s[i] != pat[0]
    ensures IndexOf(s, pat).None?
  {
    forall j | 0 <= j <= |s| ensures !OccursAt(s, pat, j) {
      if j < |s| {
        assert s[j] != pat[0];
        assert j + |pat| <= |s| ==> s[j..j + |pat|][0] == s[j];
      }
    }
  }

  lemma PrefixFacts()
    ensures forall i :: 0 <= i < 16 ==> LENGTH_PREFIX[i] != 13
    ensures forall i :: 0 <= i < 14 ==> LENGTH_PREFIX[i] != 58
    ensures LENGTH_PREFIX[14] == 58 && LENGTH_PREFIX[15] == 32
    ensures forall k :: 0 <= k < 15 ==> LowerAscii(LENGTH_PREFIX[k]) == LENGTH_KEY[k]
  {
  }

  predicate AllDigits(bs: seq<Byte>)
  {
    forall i :: 0 <= i < |bs| ==> IsDigitByte(bs[i])
  }

  lemma TrimDigits(digits: seq<Byte>)
    requires |digits| >= 1 && AllDigits(digits)
    ensures Trim([32] + digits) == digits
  {
    assert ([32] + digits)[1..] == digits;
    assert TrimStart([32] + digits) == TrimStart(digits) == digits;
  }

  lemma ReadHeaderOfEncoding(n: nat)
    ensures ReadHeader(LENGTH_PREFIX + Utf8(Decimal(n))) == Announced(Length(n))
  {
    var digits := Utf8(Decimal(n));
    var line := LENGTH_PREFIX + digits;
    DecimalRoundTrip(n);
    EncodedLengthLine(digits);
    assert FirstLengthLine([line]) == Some(0);
    EncodedLengthParts(digits);
    TrimDigits(digits);
  }

  /** The header of an encoded frame is one line, and a Content-Length line. */
  lemma EncodedLengthLine(digits: seq<Byte>)
    requires AllDigits(digits)
    ensures Split(LENGTH_PREFIX + digits, CRLF) == [LENGTH_PREFIX + digits]
    ensures IsLengthLine(LENGTH_PREFIX + digits)
  {
    PrefixFacts();
    var line := LENGTH_PREFIX + digits;
    forall i | 0 <= i < |line| ensures line[i] != 13 {
      if i >= 16 { assert line[i] == digits[i - 16]; }
    }
    AbsentFirst(line, CRLF);
    forall k | 0 <= k < 15 ensures LowerAscii(line[k]) == LENGTH_KEY[k] {
      assert line[k] == LENGTH_PREFIX[k];
    }
  }

  /** Its only ':' is the one after "Content-Length", so the second part of
      the split is a space followed by the digits. */
  lemma EncodedLengthParts(digits: seq<Byte>)
    requires AllDigits(digits)
    ensures |LENGTH_PREFIX + digits| > 14 && OccursAt(LENGTH_PREFIX + digits, COLON, 14)
    ensures Split(LENGTH_PREFIX + digits, COLON) == [LENGTH_PREFIX[..14], [32] + digits]
  {
    PrefixFacts();
    var line := LENGTH_PREFIX + digits;
    assert OccursAt(line, COLON, 14) by { assert line[14..15] == [line[14]]; }
    forall j | 0 <= j < 14 ensures !OccursAt(line, COLON, j) {
      assert line[j..j + 1][0] == line[j] == LENGTH_PREFIX[j];
    }
    IndexOfFirst(line, COLON, 14);
    var value := line[15..];
    assert value == [32] + digits;
    forall i | 0 <= i < |value| ensures value[i] != 58 {
      if i >= 1 { assert value[i] == digits[i - 1]; }
    }
    AbsentFirst(value, COLON);
    assert line[..14] == LENGTH_PREFIX[..14];
  }

  /** Decoding the front of a buffer that starts with an encoded frame yields
      that frame's payload, and exactly the bytes that follow it. */
  lemma {:induction false} ReadFrameEncoded(payload: seq<Byte>, rest: seq<Byte>)
    ensures ReadFrame(EncodeFrame(payload) + rest) == Complete(payload, rest)
  {
    var n := |payload|;
    DecimalRoundTrip(n);
    var digits := Utf8(Decimal(n));
    var line := LENGTH_PREFIX + digits;
    var buf := EncodeFrame(payload) + rest;
    var h := |line|;
    assert buf == line + SEPARATOR + payload + rest;
    assert OccursAt(buf, SEPARATOR, h) by { assert buf[h..h + 4] == SEPARATOR; }
    NoSeparatorInHeader(buf, digits);
    IndexOfFirst(buf, SEPARATOR, h);
    assert buf[..h] == line;
    ReadHeaderOfEncoding(n);
    ReadFrameAt(buf, h);
    assert buf[h + 4..h + 4 + n] == payload;
    assert buf[h + 4 + n..] == rest;
  }

  /** A length line of digits holds no carriage return, so the separator
      cannot start inside it. */
  lemma NoSeparatorInHeader(buf: seq<Byte>, digits: seq<Byte>)
    requires forall i :: 0 <= i < |digits| ==> IsDigitByte(digits[i])
    requires |LENGTH_PREFIX + digits| <= |buf| && buf[..|LENGTH_PREFIX + digits|] == LENGTH_PREFIX + digits
    ensures forall j :: 0 <= j < |LENGTH_PREFIX + digits| ==> !OccursAt(buf, SEPARATOR, j)
  {
    var line := LENGTH_PREFIX + digits;
    forall j | 0 <= j < |line| ensures !OccursAt(buf, SEPARATOR, j) {
      assert buf[j] == buf[..|line|][j] == line[j];
      if j >= 16 { assert line[j] == digits[j - 16]; }
      if j + 4 <= |buf| { assert buf[j..j + 4][0] == buf[j]; }
    }
  }

  /** Round trip: the frame of a payload decodes to that payload and leaves nothing. */
  lemma RoundTrip(payload: seq<Byte>)
    ensures ReadFrame(EncodeFrame(payload)) == Complete(payload, [])
  {
    ReadFrameEncoded(payload, []);
    assert EncodeFrame(payload) + [] == EncodeFrame(payload);
  }

  // ------------------------------------------------- more input, same frame

  /** Appending bytes does not move the first separator of a buffer that has one. */
  lemma SeparatorStable(buf: seq<Byte>, more: seq<Byte>)
    requires IndexOf(buf, SEPARATOR).Some?
    ensures IndexOf(buf + more, SEPARATOR) == IndexOf(buf, SEPARATOR)
  {
    var h := IndexOf(buf, SEPARATOR).value;
    var whole := buf + more;
    assert whole[h..h + 4] == buf[h..h + 4];
    forall j | 0 <= j < h ensures !OccursAt(whole, SEPARATOR, j) {
      assert !OccursAt(buf, SEPARATOR, j);
      assert whole[j..j + 4] == buf[j..j + 4];
    }
    IndexOfFirst(whole, SEPARATOR, h);
  }

  /** Once the front of a buffer decodes to a frame or to an error, appending
      bytes to the buffer changes only the bytes left after it. */
  lemma {:induction false} ReadFrameExtend(buf: seq<Byte>, more: seq<Byte>)
    requires !ReadFrame(buf).NeedMore?
    ensures ReadFrame(buf + more) ==
            match ReadFrame(buf)
            case Complete(p, rest) => Complete(p, rest + more)
            case other => other
  {
    var h := IndexOf(buf, SEPARATOR).value;
    var whole := buf + more;
    SeparatorStable(buf, more);
    ExtendSlice(buf, more, 0, h);
    assert whole[..h] == buf[..h];
    ReadFrameAt(buf, h);
    ReadFrameAt(whole, h);
    match ReadHeader(buf[..h])
    case Announced(Length(n)) =>
      ExtendSlice(buf, more, h + 4, h + 4 + n);
      ExtendSuffix(buf, more, h + 4 + n);
    case Announced(NotANumber) =>
    case NoLengthLine =>
  }

  lemma ExtendSlice(buf: seq<Byte>, more: seq<Byte>, i: nat, j: nat)
    requires i <= j <= |buf|
    ensures (buf + more)[i..j] == buf[i..j]
  {
  }

  lemma ExtendSuffix(buf: seq<Byte>, more: seq<Byte>, i: nat)
    requires i <= |buf|
    ensures (buf + more)[i..] == buf[i..] + more
  {
  }

  // ----------------------------------------------------- a stream of frames

  /** The complete frames at the front of a buffer, the bytes left after the
      last of them, and the step that stopped the decoding there. */
  datatype Frames = Frames(payloads: seq<seq<Byte>>, rest: seq<Byte>, stop: Step)

  /** Frames taken off the front of `buf` one at a time until `ReadFrame`
      finds no complete frame: the decomposition both the server's drain loop
      and `parseFrames` perform. */
  function SplitFrames(buf: seq<Byte>): (r: Frames)
    ensures r.stop == ReadFrame(r.rest) && !r.stop.Complete?
    decreases |buf|
  {
    match ReadFrame(buf)
    case Complete(p, rest) =>
      var r := SplitFrames(rest);
      Frames([p] + r.payloads, r.rest, r.stop)
    case other => Frames([], buf, other)
  }

  /** What is left pending is always a suffix of the input, and all of it
      when no frame was taken. */
  lemma {:induction false} SplitFramesRest(buf: seq<Byte>)
    ensures IsSuffix(SplitFrames(buf).rest, buf)
    ensures SplitFrames(buf).payloads == [] ==> SplitFrames(buf).rest == buf
    decreases |buf|
  {
    match ReadFrame(buf)
    case Complete(p, rest) =>
      CompleteRest(buf);
      SplitFramesStep(buf, p, rest);
      SplitFramesRest(rest);
      SuffixTransitive(SplitFrames(rest).rest, rest, buf);
    case _ =>
      SplitFramesNone(buf);
  }

  /** The bytes after a complete frame are a suffix of the buffer. */
  lemma CompleteRest(buf: seq<Byte>)
    requires ReadFrame(buf).Complete?
    ensures IsSuffix(ReadFrame(buf).rest, buf)
  {
    var r := ReadFrame(buf);
    ReadFrameSlices(buf);
    assert buf[|buf| - |r.rest|..] == buf[|buf| - |r.payload| - |r.rest|..][|r.payload|..];
    assert (r.payload + r.rest)[|r.payload|..] == r.rest;
  }

  /** One step of the split: a complete frame at the front is the first payload. */
  lemma SplitFramesStep(buf: seq<Byte>, p: seq<Byte>, rest: seq<Byte>)
    requires ReadFrame(buf) == Complete(p, rest)
    ensures SplitFrames(buf) ==
            Frames([p] + SplitFrames(rest).payloads, SplitFrames(rest).rest, SplitFrames(rest).stop)
  {
  }

  /** With no complete frame at the front, nothing is taken off the buffer. */
  lemma SplitFramesNone(buf: seq<Byte>)
    requires !ReadFrame(buf).Complete?
    ensures SplitFrames(buf) == Frames([], buf, ReadFrame(buf))
  {
  }

  /** An encoded frame at the front of a buffer is split off as the first
      payload; the rest of the buffer splits on its own. */
  lemma SplitFramesAfterFrame(p: seq<Byte>, later: seq<Byte>)
    ensures SplitFrames(EncodeFrame(p) + later) ==
            Frames([p] + SplitFrames(later).payloads, SplitFrames(later).rest, SplitFrames(later).stop)
  {
    ReadFrameEncoded(p, later);
    SplitFramesStep(EncodeFrame(p) + later, p, later);
  }

  /** Encoded frames followed by other bytes split into their payloads, in
      order, then whatever those other bytes split into. */
  lemma {:induction false} SplitFramesEncoded(payloads: seq<seq<Byte>>, tail: seq<Byte>)
    ensures SplitFrames(EncodeFrames(payloads) + tail) ==
            Frames(payloads + SplitFrames(tail).payloads, SplitFrames(tail).rest, SplitFrames(tail).stop)
    decreases |payloads|
  {
    if payloads == [] {
      assert EncodeFrames(payloads) + tail == tail;
    } else {
      var p := payloads[0];
      var later := EncodeFrames(payloads[1..]) + tail;
      assert EncodeFrames(payloads) + tail == EncodeFrame(p) + later;
      SplitFramesAfterFrame(p, later);
      SplitFramesEncoded(payloads[1..], tail);
      ConsAppend(payloads, SplitFrames(tail).payloads);
    }
  }

  /** Taking the head off a non-empty sequence and putting it back. */
  lemma ConsAppend<T>(xs: seq<T>, ys: seq<T>)
    requires xs != []
    ensures xs + ys == [xs[0]] + (xs[1..] + ys)
  {
    assert xs == [xs[0]] + xs[1..];
  }

  /** A stream made only of whole frames splits into exactly their payloads
      and leaves nothing pending. */
  lemma SplitWholeFrames(payloads: seq<seq<Byte>>)
    ensures SplitFrames(EncodeFrames(payloads)) == Frames(payloads, [], NeedMore)
  {
    SplitFramesEncoded(payloads, []);
    assert EncodeFrames(payloads) + [] == EncodeFrames(payloads);
    var empty: seq<Byte> := [];
    assert IndexOf(empty, SEPARATOR).None?;
    assert payloads + [] == payloads;
  }

  /** Chunk boundaries do not matter: splitting `a`, then splitting what it
      left with `b` appended, finds the same frames as splitting `a + b`. After
      an error nothing more is taken, however many bytes follow. */
  lemma {:induction false} SplitFramesChunked(a: seq<Byte>, b: seq<Byte>)
    ensures var ra := SplitFrames(a);
            var rb := SplitFrames(ra.rest + b);
            SplitFrames(a + b) ==
              if ra.stop.NeedMore? then Frames(ra.payloads + rb.payloads, rb.rest, rb.stop)
              else Frames(ra.payloads, ra.rest + b, ra.stop)
    decreases |a|
  {
    match ReadFrame(a)
    case Complete(p, rest) =>
      ReadFrameExtend(a, b);
      assert ReadFrame(a + b) == Complete(p, rest + b);
      SplitFramesChunked(rest, b);
      var rr := SplitFrames(rest);
      var rb := SplitFrames(rr.rest + b);
      if rr.stop.NeedMore? {
        AppendAssoc([p], rr.payloads, rb.payloads);
      } else {
        ReadFrameExtend(rr.rest, b);
      }
    case NeedMore =>
      assert [] + SplitFrames(a + b).payloads == SplitFrames(a + b).payloads;
    case _ =>
      ReadFrameExtend(a, b);
  }
}
