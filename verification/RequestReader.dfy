/** The control socket's HTTP request reader: it grows a buffer from reads of 1 to 4096
    bytes. Proved to depend on the byte stream alone, not on how reads cut it. */
module RequestReader {
  import opened Numbers
  import opened Text
  import opened Wrappers

  const MAX_HEADER := 16 * 1024
  const CHUNK := 4096
  const USIZE := 0x1_0000_0000_0000_0000

  const CR: Byte := 13
  const LF: Byte := 10

  datatype Error =
    | HeadersTooLarge | ClosedBeforeHeaders | RequestTooLarge
    | BadEncoding | BadRequestLine | BadHeader | TransferEncoding | DuplicateLength | BadLength
    | BodyTooLarge | ClosedBeforeBody | TrailingData

  datatype Result<+T> = Ok(value: T) | Err(error: Error)

  datatype Request = Request(verb: string, target: string, body: seq<Byte>)

  datatype Head = Head(verb: string, target: string, length: nat)

  // ---------- the head ----------

  predicate Tail(b: seq<Byte>) {
    b != [] && 0x80 <= b[0] < 0xC0
  }

  function Utf8Length(b: seq<Byte>): nat
    requires b != []
  {
    var t := b[1..];
    if b[0] < 0x80 then 1
    else if 0xC2 <= b[0] < 0xE0 && Tail(t) then 2
    else if 0xE0 <= b[0] < 0xF0 && Tail(t) && Tail(t[1..])
            && (b[0] == 0xE0 ==> t[0] >= 0xA0) && (b[0] == 0xED ==> t[0] < 0xA0) then 3
    else if 0xF0 <= b[0] < 0xF5 && Tail(t) && Tail(t[1..]) && Tail(t[2..])
            && (b[0] == 0xF0 ==> t[0] >= 0x90) && (b[0] == 0xF4 ==> t[0] < 0x90) then 4
    else 0
  }

  function Utf8Char(b: seq<Byte>): char
    requires b != [] && Utf8Length(b) > 0
  {
    match Utf8Length(b)
    case 1 => b[0] as int as char
    case 2 => ((b[0] as int - 0xC0) * 64 + (b[1] as int - 0x80)) as char
    case 3 => ((b[0] as int - 0xE0) * 4096 + (b[1] as int - 0x80) * 64 + (b[2] as int - 0x80)) as char
    case _ => ((b[0] as int - 0xF0) * 262144 + (b[1] as int - 0x80) * 4096
               + (b[2] as int - 0x80) * 64 + (b[3] as int - 0x80)) as char
  }

  /** Strict UTF-8 decoding. */
  function Decode(b: seq<Byte>): Option<string> {
    if b == [] then Some("")
    else
      var n := Utf8Length(b);
      if n == 0 then None
      else
        assert n <= |b|;
        match Decode(b[n..])
        case None => None
        case Some(s) => Some([Utf8Char(b)] + s)
  }

  /** Position of the first CR LF pair. */
  function FindCrlf(s: string): (r: Option<nat>)
    ensures r.Some? ==> r.value + 2 <= |s|
  {
    if |s| < 2 then None
    else if s[0] == '\r' && s[1] == '\n' then Some(0)
    else match FindCrlf(s[1..])
      case None => None
      case Some(i) => Some(i + 1)
  }

  function Lines(s: string): (r: seq<string>)
    ensures r != []
    decreases |s|
  {
    match FindCrlf(s)
    case None => [s]
    case Some(i) => [s[..i]] + Lines(s[i + 2..])
  }

  function WordEnd(s: string): (n: nat)
    ensures n <= |s|
  {
    if s == "" || IsSpace(s[0]) then 0 else 1 + WordEnd(s[1..])
  }

  function Words(s: string): seq<string>
    decreases |s|
  {
    var t := TrimStart(s);
    TrimStartShorter(s);
    if t == "" then [] else assert WordEnd(t) > 0; [t[..WordEnd(t)]] + Words(t[WordEnd(t)..])
  }

  lemma TrimStartShorter(s: string)
    ensures |TrimStart(s)| <= |s|
    ensures TrimStart(s) != "" ==> !IsSpace(TrimStart(s)[0])
  {
  }

  function ParseRequestLine(line: string): Result<(string, string)> {
    var w := Words(line);
    if |w| == 3 && (w[2] == "HTTP/1.0" || w[2] == "HTTP/1.1") then Ok((w[0], w[1]))
    else Err(BadRequestLine)
  }

  function ParseUsize(s: string): Option<nat> {
    ParseUnsigned(s, USIZE)
  }

  predicate Malformed(line: string) {
    line != "" && IndexOf(line, ':') == |line|
  }

  predicate Named(line: string, name: string) {
    line != "" && IndexOf(line, ':') < |line| && EqIgnoreCase(line[..IndexOf(line, ':')], name)
  }

  function LengthOf(line: string): Option<nat>
    requires Named(line, "content-length")
  {
    ParseUsize(Trim(line[IndexOf(line, ':') + 1..]))
  }

  /** Content length announced by the header lines from `i` on, with `seen` already read. */
  function Announced(lines: seq<string>, i: nat, seen: Option<nat>): Result<Option<nat>>
    requires i <= |lines|
    decreases |lines| - i
  {
    if i == |lines| then Ok(seen)
    else
      var line := lines[i];
      if line == "" then Announced(lines, i + 1, seen)
      else if Malformed(line) then Err(BadHeader)
      else if Named(line, "transfer-encoding") then Err(TransferEncoding)
      else if Named(line, "content-length") then
        if seen.Some? then Err(DuplicateLength)
        else match LengthOf(line)
          case None => Err(BadLength)
          case Some(n) => Announced(lines, i + 1, Some(n))
      else Announced(lines, i + 1, seen)
  }

  function ParseHead(b: seq<Byte>): Result<Head> {
    match Decode(b)
    case None => Err(BadEncoding)
    case Some(text) =>
      var lines := Lines(text);
      match ParseRequestLine(lines[0])
      case Err(e) => Err(e)
      case Ok((verb, target)) =>
        match Announced(lines, 1, None)
        case Err(e) => Err(e)
        case Ok(n) => Ok(Head(verb, target, if n.Some? then n.value else 0))
  }

  // ---------- the whole stream ----------

  ghost predicate BlankAt(b: seq<Byte>, i: int) {
    0 <= i && i + 4 <= |b| && b[i..i + 4] == [CR, LF, CR, LF]
  }

  /** Position of the first blank line. */
  function FindBlank(b: seq<Byte>, i: nat): (r: Option<nat>)
    requires i <= |b|
    ensures r.Some? ==> i <= r.value && BlankAt(b, r.value) && forall j :: i <= j < r.value ==> !BlankAt(b, j)
    ensures r.None? ==> forall j :: i <= j ==> !BlankAt(b, j)
    decreases |b| - i
  {
    if i + 4 > |b| then None
    else if b[i..i + 4] == [CR, LF, CR, LF] then Some(i)
    else FindBlank(b, i + 1)
  }

  /** The request a whole byte stream carries: a head up to the first blank line, then as
      many body bytes as its single content length announces; later bytes are ignored. */
  function Whole(stream: seq<Byte>, limit: nat): Result<Request> {
    match FindBlank(stream, 0)
    case None => Err(if |stream| >= MAX_HEADER then HeadersTooLarge else ClosedBeforeHeaders)
    case Some(pos) =>
      var end := pos + 4;
      if end > MAX_HEADER then Err(HeadersTooLarge)
      else match ParseHead(stream[..end])
        case Err(e) => Err(e)
        case Ok(h) =>
          if h.length > limit then Err(BodyTooLarge)
          else if |stream| < end + h.length then Err(ClosedBeforeBody)
          else Ok(Request(h.verb, h.target, stream[end..end + h.length]))
  }

  // ---------- the reader, read by read ----------

  predicate Cut(chunks: seq<seq<Byte>>) {
    forall i :: 0 <= i < |chunks| ==> 1 <= |chunks[i]| <= CHUNK
  }

  function Flatten(chunks: seq<seq<Byte>>): seq<Byte> {
    if chunks == [] then [] else chunks[0] + Flatten(chunks[1..])
  }

  /** Buffer and unread chunks once the head is complete. */
  datatype Scan = Scan(bytes: seq<Byte>, rest: seq<seq<Byte>>, end: nat)

  function ScanHead(chunks: seq<seq<Byte>>, bytes: seq<Byte>, limit: nat): (r: Result<Scan>)
    ensures r.Ok? ==> r.value.end <= |r.value.bytes|
    decreases |chunks|
  {
    match FindBlank(bytes, 0)
    case Some(pos) => Ok(Scan(bytes, chunks, pos + 4))
    case None =>
      if |bytes| >= MAX_HEADER then Err(HeadersTooLarge)
      else if chunks == [] then Err(ClosedBeforeHeaders)
      else if |bytes + chunks[0]| > MAX_HEADER + limit then Err(RequestTooLarge)
      else ScanHead(chunks[1..], bytes + chunks[0], limit)
  }

  function ScanBody(chunks: seq<seq<Byte>>, bytes: seq<Byte>, end: nat, length: nat): Result<seq<Byte>>
    requires end <= |bytes|
    decreases |chunks|
  {
    if |bytes| - end >= length then Ok(bytes[end..end + length])
    else if chunks == [] then Err(ClosedBeforeBody)
    else if |bytes + chunks[0]| > end + length + 4096 then Err(TrailingData)
    else ScanBody(chunks[1..], bytes + chunks[0], end, length)
  }

  function Streamed(chunks: seq<seq<Byte>>, limit: nat): Result<Request> {
    match ScanHead(chunks, [], limit)
    case Err(e) => Err(e)
    case Ok(s) =>
      if s.end > MAX_HEADER then Err(HeadersTooLarge)
      else match ParseHead(s.bytes[..s.end])
        case Err(e) => Err(e)
        case Ok(h) =>
          if h.length > limit then Err(BodyTooLarge)
          else match ScanBody(s.rest, s.bytes, s.end, h.length)
            case Err(e) => Err(e)
            case Ok(body) => Ok(Request(h.verb, h.target, body))
  }

  // ---------- cuts do not matter ----------

  lemma BlankInPrefix(a: seq<Byte>, b: seq<Byte>)
    ensures FindBlank(a, 0).Some? ==> FindBlank(a + b, 0) == FindBlank(a, 0)
    ensures FindBlank(a, 0).None? && FindBlank(a + b, 0).Some? ==> FindBlank(a + b, 0).value + 4 > |a|
  {
    forall i | i + 4 <= |a| ensures BlankAt(a, i) <==> BlankAt(a + b, i) {
      if 0 <= i {
        assert (a + b)[i..i + 4] == a[i..i + 4];
      }
    }
  }

  /** How a scan of the head ends, in terms of the whole stream. */
  ghost predicate HeadOutcome(stream: seq<Byte>, limit: nat, r: Result<Scan>) {
    match r
    case Ok(s) => s.bytes + Flatten(s.rest) == stream && Cut(s.rest)
                  && s.end >= 4 && FindBlank(stream, 0) == Some((s.end - 4) as nat)
    case Err(HeadersTooLarge) =>
      |stream| >= MAX_HEADER && (FindBlank(stream, 0).Some? ==> FindBlank(stream, 0).value + 4 > MAX_HEADER)
    case Err(ClosedBeforeHeaders) => |stream| < MAX_HEADER && FindBlank(stream, 0).None?
    case Err(RequestTooLarge) => limit < CHUNK - 1 && |stream| > MAX_HEADER + limit
    case Err(_) => false
  }

  lemma {:induction false} ScanHeadOutcome(chunks: seq<seq<Byte>>, bytes: seq<Byte>, limit: nat)
    requires Cut(chunks)
    ensures HeadOutcome(bytes + Flatten(chunks), limit, ScanHead(chunks, bytes, limit))
    decreases |chunks|
  {
    hide FindBlank;
    BlankInPrefix(bytes, Flatten(chunks));
    if FindBlank(bytes, 0).None? && |bytes| < MAX_HEADER {
      if chunks == [] {
        assert bytes + [] == bytes;
      } else {
        assert |chunks[0]| <= CHUNK;
        assert bytes + chunks[0] + Flatten(chunks[1..]) == bytes + Flatten(chunks);
        ScanHeadOutcome(chunks[1..], bytes + chunks[0], limit);
      }
    }
  }

  function Slice(stream: seq<Byte>, end: nat, length: nat): Result<seq<Byte>> {
    if |stream| < end + length then Err(ClosedBeforeBody) else Ok(stream[end..end + length])
  }

  /** The body is the announced bytes; the guard against trailing data never fires. */
  lemma {:induction false} ScanBodyOutcome(chunks: seq<seq<Byte>>, bytes: seq<Byte>, end: nat, length: nat)
    requires Cut(chunks) && end <= |bytes|
    ensures ScanBody(chunks, bytes, end, length)
         == Slice(bytes + Flatten(chunks), end, length)
    decreases |chunks|
  {
    var stream := bytes + Flatten(chunks);
    if |bytes| - end >= length {
      assert stream[end..end + length] == bytes[end..end + length];
    } else if chunks != [] {
      assert |chunks[0]| <= CHUNK;
      assert bytes + chunks[0] + Flatten(chunks[1..]) == stream;
      ScanBodyOutcome(chunks[1..], bytes + chunks[0], end, length);
    }
  }

  /** For every body limit and cut the reader gives what the whole stream gives, or, only
      below 4095, refuses a stream for its size. */
  lemma StreamedIsWhole(chunks: seq<seq<Byte>>, limit: nat)
    requires Cut(chunks)
    ensures limit >= CHUNK - 1 ==> Streamed(chunks, limit) == Whole(Flatten(chunks), limit)
    ensures Streamed(chunks, limit) != Whole(Flatten(chunks), limit) ==>
      Streamed(chunks, limit) == Err(RequestTooLarge) && |Flatten(chunks)| > MAX_HEADER + limit
  {
    hide FindBlank, ParseHead, ScanHead, ScanBody, Flatten;
    var stream := Flatten(chunks);
    assert [] + stream == stream;
    ScanHeadOutcome(chunks, [], limit);
    var r := ScanHead(chunks, [], limit);
    if r.Ok? {
      var s := r.value;
      assert stream[..s.end] == s.bytes[..s.end];
      if ParseHead(stream[..s.end]).Ok? {
        ScanBodyOutcome(s.rest, s.bytes, s.end, ParseHead(stream[..s.end]).value.length);
      }
    }
  }

  // ---------- smaller body limits ----------

  function Fill(n: nat): seq<Byte> {
    seq(n, _ => 97)
  }

  function FullChunks(n: nat): seq<seq<Byte>> {
    if n == 0 then [] else [Fill(CHUNK)] + FullChunks(n - 1)
  }

  lemma NoBlank(n: nat)
    ensures FindBlank(Fill(n), 0).None?
  {
    forall i ensures !BlankAt(Fill(n), i) {
      if 0 <= i && i + 4 <= n {
        assert Fill(n)[i..i + 4][0] == 97;
      }
    }
  }

  lemma FillJoin(a: nat, b: nat)
    ensures Fill(a) + Fill(b) == Fill(a + b)
  {
  }

  lemma FlattenStep(c: seq<Byte>, rest: seq<seq<Byte>>)
    ensures Flatten([c] + rest) == c + Flatten(rest)
  {
    assert ([c] + rest)[1..] == rest;
  }

  lemma {:induction false} FlattenFull(n: nat, last: seq<seq<Byte>>)
    ensures Flatten(FullChunks(n) + last) == Fill(n * CHUNK) + Flatten(last)
  {
    if n == 0 {
      assert [] + last == last && Fill(0) + Flatten(last) == Flatten(last);
    } else {
      hide Flatten, Fill;
      var rest := FullChunks(n - 1) + last;
      assert FullChunks(n) + last == [Fill(CHUNK)] + rest;
      FlattenStep(Fill(CHUNK), rest);
      FlattenFull(n - 1, last);
      FillJoin(CHUNK, (n - 1) * CHUNK);
      assert Fill(CHUNK) + (Fill((n - 1) * CHUNK) + Flatten(last)) == (Fill(CHUNK) + Fill((n - 1) * CHUNK)) + Flatten(last);
    }
  }

  lemma ScanStep(chunks: seq<seq<Byte>>, limit: nat, have: nat)
    requires chunks != [] && chunks[0] == Fill(CHUNK) && have + CHUNK <= MAX_HEADER
    ensures ScanHead(chunks, Fill(have), limit) == ScanHead(chunks[1..], Fill(have + CHUNK), limit)
  {
    hide FindBlank, Fill;
    NoBlank(have);
    FillSize(have);
    FillSize(CHUNK);
    FillJoin(have, CHUNK);
  }

  lemma {:induction false} ScanFull(n: nat, last: seq<seq<Byte>>, limit: nat, have: nat)
    requires have + n * CHUNK <= MAX_HEADER
    ensures ScanHead(FullChunks(n) + last, Fill(have), limit)
         == ScanHead(last, Fill(have + n * CHUNK), limit)
  {
    hide ScanHead, Fill;
    if n == 0 {
      assert [] + last == last;
    } else {
      ScanStep(FullChunks(n) + last, limit, have);
      assert (FullChunks(n) + last)[1..] == FullChunks(n - 1) + last;
      ScanFull(n - 1, last, limit, have + CHUNK);
    }
  }

  /** Two cuts of one stream that a reader with a smaller body limit tells apart. */
  lemma SmallLimitCuts(limit: nat) returns (a: seq<seq<Byte>>, b: seq<seq<Byte>>)
    requires limit < CHUNK - 1
    ensures Cut(a) && Cut(b) && Flatten(a) == Flatten(b)
    ensures Streamed(a, limit) == Err(RequestTooLarge) && Streamed(b, limit) == Err(HeadersTooLarge)
  {
    hide FindBlank, ParseHead, Fill;
    var short, full := Fill(CHUNK - 1), Fill(CHUNK);
    FillSize(CHUNK - 1);
    FillSize(CHUNK);
    FillSize(MAX_HEADER - 1);
    FillSize(MAX_HEADER);
    a := FullChunks(3) + [short, full];
    b := FullChunks(4) + [short];
    FullCut(3);
    FullCut(4);
    FlattenFull(3, [short, full]);
    FlattenFull(4, [short]);
    FlattenTwo(short, full);
    FlattenOne(short);
    FillJoin(CHUNK - 1, CHUNK);
    FillJoin(3 * CHUNK, 2 * CHUNK - 1);
    FillJoin(4 * CHUNK, CHUNK - 1);
    FillEmpty();
    ScanFull(3, [short, full], limit, 0);
    NoBlank(3 * CHUNK);
    FillSize(3 * CHUNK);
    FillJoin(3 * CHUNK, CHUNK - 1);
    NoBlank(MAX_HEADER - 1);
    ScanFull(4, [short], limit, 0);
    NoBlank(MAX_HEADER);
    ScanTwo(3 * CHUNK, limit);
  }

  lemma ScanTwo(have: nat, limit: nat)
    requires limit < CHUNK - 1 && have == 3 * CHUNK
    ensures ScanHead([Fill(CHUNK - 1), Fill(CHUNK)], Fill(have), limit) == Err(RequestTooLarge)
  {
    hide FindBlank, Fill;
    FillSize(have);
    FillSize(CHUNK - 1);
    FillSize(CHUNK);
    FillJoin(have, CHUNK - 1);
    NoBlank(have);
    NoBlank(have + CHUNK - 1);
    assert [Fill(CHUNK - 1), Fill(CHUNK)][1..] == [Fill(CHUNK)];
  }

  lemma FillSize(n: nat)
    ensures |Fill(n)| == n
  {
  }

  lemma FillEmpty()
    ensures Fill(0) == []
  {
  }

  lemma FlattenOne(x: seq<Byte>)
    ensures Flatten([x]) == x
  {
    assert x + [] == x;
  }

  lemma FlattenTwo(x: seq<Byte>, y: seq<Byte>)
    ensures Flatten([x, y]) == x + y
  {
    assert [x, y][1..] == [y];
    FlattenOne(y);
  }

  lemma {:induction false} FullCut(n: nat)
    ensures Cut(FullChunks(n))
  {
    if n > 0 {
      FullCut(n - 1);
    }
  }

  /** The outcome is a function of the byte stream alone if and only if the body limit is
      at least 4095 bytes (the agent's is 524288): below that, a read that straddles the
      header limit can be refused for its size before the header check is reached. */
  lemma CutIndependentIff(limit: nat)
    ensures limit >= CHUNK - 1
       <==> forall a, b :: Cut(a) && Cut(b) && Flatten(a) == Flatten(b) ==> Streamed(a, limit) == Streamed(b, limit)
  {
    hide Streamed, Flatten, Whole;
    if limit >= CHUNK - 1 {
      forall a, b | Cut(a) && Cut(b) && Flatten(a) == Flatten(b)
        ensures Streamed(a, limit) == Streamed(b, limit)
      {
        StreamedIsWhole(a, limit);
        StreamedIsWhole(b, limit);
      }
    } else {
      var a, b := SmallLimitCuts(limit);
    }
  }

  // ---------- what the header lines announce ----------

  /** No line from `i` on is malformed, transfer-encoded or an unreadable length. */
  ghost predicate CleanFrom(lines: seq<string>, i: nat) {
    forall j :: i <= j < |lines| ==>
      && !Malformed(lines[j])
      && !Named(lines[j], "transfer-encoding")
      && (Named(lines[j], "content-length") ==> LengthOf(lines[j]).Some?)
  }

  ghost predicate NoLengthFrom(lines: seq<string>, i: nat) {
    forall j :: i <= j < |lines| ==> !Named(lines[j], "content-length")
  }

  ghost predicate OnlyLength(lines: seq<string>, i: nat, k: nat, n: nat) {
    && i <= k < |lines| && Named(lines[k], "content-length") && LengthOf(lines[k]) == Some(n)
    && forall j :: i <= j < |lines| && j != k ==> !Named(lines[j], "content-length")
  }

  ghost predicate OneLength(lines: seq<string>, i: nat, n: nat) {
    exists k :: OnlyLength(lines, i, k, n)
  }

  lemma {:induction false} AnnouncedAfter(lines: seq<string>, i: nat, n: nat)
    requires i <= |lines|
    ensures Announced(lines, i, Some(n)).Ok? <==> CleanFrom(lines, i) && NoLengthFrom(lines, i)
    ensures Announced(lines, i, Some(n)).Ok? ==> Announced(lines, i, Some(n)).value == Some(n)
    decreases |lines| - i
  {
    if i < |lines| {
      NamesApart(lines[i]);
      AnnouncedAfter(lines, i + 1, n);
    }
  }

  lemma NamesApart(line: string)
    ensures !(Named(line, "content-length") && Named(line, "transfer-encoding"))
    ensures Malformed(line) ==> !Named(line, "content-length") && !Named(line, "transfer-encoding")
  {
    assert |Lower("content-length")| == 14;
    assert |Lower("transfer-encoding")| == 17;
  }

  /** Framing: a head is accepted with no length when no line announces one, and with
      length n exactly when one line does and says n; any transfer encoding, repeated or
      unreadable length or line without a colon rejects it. */
  lemma {:induction false} AnnouncedMeaning(lines: seq<string>, i: nat, n: nat)
    requires i <= |lines|
    ensures Announced(lines, i, None) == Ok(None) <==> CleanFrom(lines, i) && NoLengthFrom(lines, i)
    ensures Announced(lines, i, None) == Ok(Some(n))
       <==> CleanFrom(lines, i) && OneLength(lines, i, n)
    decreases |lines| - i
  {
    if i < |lines| {
      var line := lines[i];
      NamesApart(line);
      AnnouncedMeaning(lines, i + 1, n);
      if Named(line, "content-length") && LengthOf(line).Some? {
        AnnouncedAfter(lines, i + 1, LengthOf(line).value);
        assert CleanFrom(lines, i + 1) && NoLengthFrom(lines, i + 1) ==>
            OnlyLength(lines, i, i, LengthOf(line).value);
      } else if !Named(line, "content-length") {
        OneLengthStep(lines, i, n);
      }
    }
  }

  lemma OneLengthStep(lines: seq<string>, i: nat, n: nat)
    requires i < |lines| && !Named(lines[i], "content-length")
    ensures OneLength(lines, i, n) <==> OneLength(lines, i + 1, n)
  {
    if OneLength(lines, i + 1, n) {
      var k :| OnlyLength(lines, i + 1, k, n);
      assert OnlyLength(lines, i, k, n);
    }
    if OneLength(lines, i, n) {
      var k :| OnlyLength(lines, i, k, n);
      assert OnlyLength(lines, i + 1, k, n);
    }
  }

  // ---------- lengths ----------

  /** Optional white space of a field value in RFC 9110. */
  predicate IsBlank(c: char) {
    c == ' ' || c == '\t'
  }

  function StripStart(s: string): string {
    if s != "" && IsBlank(s[0]) then StripStart(s[1..]) else s
  }

  function StripEnd(s: string): string {
    if s != "" && IsBlank(s[|s| - 1]) then StripEnd(s[..|s| - 1]) else s
  }

  function Strip(s: string): string {
    StripEnd(StripStart(s))
  }

  /** The length grammar of section 8.6 of RFC 9110. */
  predicate AllDigits(s: string) {
    s != "" && forall i :: 0 <= i < |s| ==> '0' <= s[i] <= '9'
  }

  function ValueOf(line: string): string
    requires Named(line, "content-length")
  {
    line[IndexOf(line, ':') + 1..]
  }

  /** All the white space there is, around the value, is space and tab. */
  predicate OnlyBlanks(s: string) {
    forall c :: c in s && IsSpace(c) ==> IsBlank(c)
  }

  lemma {:induction false} DigitsMeans(s: string, acc: nat)
    ensures Digits(s, acc).Some? <==> forall i :: 0 <= i < |s| ==> '0' <= s[i] <= '9'
  {
    if s != "" {
      if '0' <= s[0] <= '9' {
        DigitsMeans(s[1..], acc * 10 + (s[0] as int - '0' as int));
      }
      assert s == [s[0]] + s[1..];
    }
  }

  lemma {:induction false} StripStartParts(s: string)
    ensures forall c :: c in s ==> c in StripStart(s) || IsBlank(c)
    ensures forall c :: c in StripStart(s) ==> c in s
    ensures OnlyBlanks(s) ==> StripStart(s) == TrimStart(s)
  {
    if s != "" {
      assert s == [s[0]] + s[1..];
      StripStartParts(s[1..]);
    }
  }

  lemma {:induction false} StripEndParts(s: string)
    ensures forall c :: c in s ==> c in StripEnd(s) || IsBlank(c)
    ensures OnlyBlanks(s) ==> StripEnd(s) == TrimEnd(s)
  {
    if s != "" {
      var init := s[..|s| - 1];
      assert s == init + [s[|s| - 1]];
      StripEndParts(init);
    }
  }

  lemma {:induction false} TrimParts(s: string)
    ensures forall c :: c in TrimStart(s) ==> c in s
    ensures forall c :: c in TrimEnd(s) ==> c in s
  {
    if s != "" {
      assert s == [s[0]] + s[1..] && s == s[..|s| - 1] + [s[|s| - 1]];
      TrimParts(s[1..]);
      TrimParts(s[..|s| - 1]);
    }
  }

  /** Where all white space is blank, trimming it is stripping blanks. */
  lemma StripIsTrim(w: string)
    requires OnlyBlanks(w)
    ensures Strip(w) == Trim(w)
  {
    StripStartParts(w);
    StripEndParts(StripStart(w));
    hide StripStart, StripEnd, TrimStart, TrimEnd, IsSpace;
  }

  /** Digits between blanks hold no plus and no other white space. */
  lemma StandardIsPlain(w: string)
    requires AllDigits(Strip(w))
    ensures '+' !in w && OnlyBlanks(w)
  {
    StripStartParts(w);
    StripEndParts(StripStart(w));
    forall c | c in w ensures IsBlank(c) || '0' <= c <= '9' {
      hide StripStart, StripEnd;
    }
    hide StripStart, StripEnd;
  }

  lemma PlainIsStandard(w: string)
    requires ParseUsize(Trim(w)).Some? && '+' !in w && OnlyBlanks(w)
    ensures AllDigits(Strip(w))
  {
    StripIsTrim(w);
    TrimParts(w);
    TrimParts(TrimStart(w));
    DigitsMeans(Trim(w), 0);
    hide TrimStart, TrimEnd, Strip, Digits;
    assert Trim(w) != "" ==> Trim(w)[0] in Trim(w);
  }

  /** An accepted length follows the grammar if and only if it has no leading plus and no
      white space but space and tab around it. */
  lemma LengthIsStandardIff(line: string)
    requires Named(line, "content-length") && LengthOf(line).Some?
    ensures AllDigits(Strip(ValueOf(line))) <==> '+' !in ValueOf(line) && OnlyBlanks(ValueOf(line))
  {
    var w := ValueOf(line);
    hide Named;
    if '+' !in w && OnlyBlanks(w) {
      PlainIsStandard(w);
    }
    if AllDigits(Strip(w)) {
      StandardIsPlain(w);
    }
  }

  /** Every length of the grammar is the numeral of a number after zeros; it is read as that
      number if that fits a machine word, and refused otherwise. */
  lemma StandardLengthIsRead(line: string) returns (z: nat, n: nat)
    requires Named(line, "content-length") && AllDigits(Strip(ValueOf(line)))
    ensures Strip(ValueOf(line)) == Zeros(z) + ShowNat(n)
    ensures LengthOf(line) == if n < USIZE then Some(n) else None
  {
    var w := ValueOf(line);
    hide Named;
    StandardIsPlain(w);
    StripIsTrim(w);
    z, n := DigitsAreNumeral(Strip(w));
    hide TrimStart, TrimEnd, StripStart, StripEnd, Digits, ShowNat;
  }

  /** Both deviations occur for every length: a plus before it, or any white space. */
  lemma LooseLengths(d: string, c: char)
    requires AllDigits(d) && Digits(d, 0).Some? && Digits(d, 0).value < USIZE && IsSpace(c)
    ensures ParseUsize(Trim("+" + d)) == Digits(d, 0) && ParseUsize(Trim([c] + d)) == Digits(d, 0)
  {
    TrimFixed("+" + d);
    TrimFixed(d);
    assert ("+" + d)[1..] == d && ([c] + d)[1..] == d;
    assert TrimStart([c] + d) == TrimStart(d);
    hide TrimStart, TrimEnd, Digits;
  }

  // ---------- the loops ----------

  method ReadHeaders(lines: seq<string>) returns (r: Result<nat>)
    requires lines != []
    ensures r == match Announced(lines, 1, None)
                 case Err(e) => Err(e)
                 case Ok(n) => Ok(if n.Some? then n.value else 0)
  {
    var length, sawLength := 0, false;
    var i := 1;
    while i < |lines|
      invariant 1 <= i <= |lines|
      invariant !sawLength ==> length == 0
      invariant Announced(lines, 1, None) == Announced(lines, i, if sawLength then Some(length) else None)
    {
      var line := lines[i];
      i := i + 1;
      if line != "" {
        var colon := IndexOf(line, ':');
        if colon == |line| {
          return Err(BadHeader);
        }
        if EqIgnoreCase(line[..colon], "transfer-encoding") {
          return Err(TransferEncoding);
        }
        if EqIgnoreCase(line[..colon], "content-length") {
          if sawLength {
            return Err(DuplicateLength);
          }
          var n := ParseUsize(Trim(line[colon + 1..]));
          if n.None? {
            return Err(BadLength);
          }
          length, sawLength := n.value, true;
        }
      }
    }
    return Ok(length);
  }

  /** Reads until the buffer holds a blank line. */
  method ReadHead(chunks: seq<seq<Byte>>, limit: nat) returns (r: Result<Scan>)
    ensures r == ScanHead(chunks, [], limit)
  {
    hide FindBlank;
    var bytes: seq<Byte> := [];
    var k := 0;
    var blank := FindBlank(bytes, 0);
    while blank.None?
      invariant 0 <= k <= |chunks| && blank == FindBlank(bytes, 0)
      invariant ScanHead(chunks, [], limit) == ScanHead(chunks[k..], bytes, limit)
      decreases |chunks| - k
    {
      if |bytes| >= MAX_HEADER {
        return Err(HeadersTooLarge);
      }
      if k == |chunks| {
        return Err(ClosedBeforeHeaders);
      }
      assert chunks[k..][1..] == chunks[k + 1..];
      bytes := bytes + chunks[k];
      k := k + 1;
      if |bytes| > MAX_HEADER + limit {
        return Err(RequestTooLarge);
      }
      blank := FindBlank(bytes, 0);
    }
    return Ok(Scan(bytes, chunks[k..], blank.value + 4));
  }

  /** Reads until the buffer holds the announced body. */
  method ReadBody(chunks: seq<seq<Byte>>, buffer: seq<Byte>, end: nat, length: nat) returns (r: Result<seq<Byte>>)
    requires end <= |buffer|
    ensures r == ScanBody(chunks, buffer, end, length)
  {
    var bytes := buffer;
    var k := 0;
    while |bytes| - end < length
      invariant 0 <= k <= |chunks| && end <= |bytes|
      invariant ScanBody(chunks, buffer, end, length) == ScanBody(chunks[k..], bytes, end, length)
      decreases |chunks| - k
    {
      if k == |chunks| {
        return Err(ClosedBeforeBody);
      }
      assert chunks[k..][1..] == chunks[k + 1..];
      bytes := bytes + chunks[k];
      k := k + 1;
      if |bytes| > end + length + 4096 {
        return Err(TrailingData);
      }
    }
    return Ok(bytes[end..end + length]);
  }

  /** The reader itself. For body limits of at least 4095 it computes the request of the
      whole stream. */
  method ReadRequest(chunks: seq<seq<Byte>>, limit: nat) returns (r: Result<Request>)
    requires Cut(chunks)
    ensures r == Streamed(chunks, limit)
    ensures limit >= CHUNK - 1 ==> r == Whole(Flatten(chunks), limit)
    ensures r != Whole(Flatten(chunks), limit) ==> r == Err(RequestTooLarge) && |Flatten(chunks)| > MAX_HEADER + limit
  {
    hide Whole, Flatten, ScanHead, ScanBody, Decode, Lines, ParseRequestLine, Announced;
    StreamedIsWhole(chunks, limit);
    var head := ReadHead(chunks, limit);
    if head.Err? {
      return Err(head.error);
    }
    var Scan(bytes, rest, end) := head.value;
    if end > MAX_HEADER {
      return Err(HeadersTooLarge);
    }
    var text := Decode(bytes[..end]);
    if text.None? {
      return Err(BadEncoding);
    }
    var lines := Lines(text.value);
    var line := ParseRequestLine(lines[0]);
    if line.Err? {
      return Err(line.error);
    }
    var length := ReadHeaders(lines);
    if length.Err? {
      return Err(length.error);
    }
    if length.value > limit {
      return Err(BodyTooLarge);
    }
    var body := ReadBody(rest, bytes, end, length.value);
    if body.Err? {
      return Err(body.error);
    }
    return Ok(Request(line.value.0, line.value.1, body.value));
  }
}
