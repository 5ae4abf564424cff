/** What a request on the wire means: the encoding of its head, its lines and words, and the
    request that the bytes of a well-formed one are read as. */
module Framing {
  import opened Numbers
  import opened Text
  import opened Wrappers
  import opened RequestReader

  // ---------- UTF-8 ----------

  /** The encoding of one character in RFC 3629. */
  function EncodeChar(c: char): (b: seq<Byte>)
    ensures 1 <= |b| <= 4
  {
    var n := c as int;
    if n < 0x80 then [n as Byte]
    else if n < 0x800 then [(0xC0 + n / 64) as Byte, (0x80 + n % 64) as Byte]
    else if n < 0x10000 then [(0xE0 + n / 4096) as Byte, (0x80 + n / 64 % 64) as Byte, (0x80 + n % 64) as Byte]
    else [(0xF0 + n / 262144) as Byte, (0x80 + n / 4096 % 64) as Byte, (0x80 + n / 64 % 64) as Byte, (0x80 + n % 64) as Byte]
  }

  function Encode(s: string): seq<Byte> {
    if s == "" then [] else EncodeChar(s[0]) + Encode(s[1..])
  }

  predicate Cont(x: Byte) {
    0x80 <= x < 0xC0
  }

  /** The number of bytes of the first character, byte by byte. */
  lemma LengthByBytes(b: seq<Byte>)
    requires b != []
    ensures Utf8Length(b) ==
      if b[0] < 0x80 then 1
      else if 0xC2 <= b[0] < 0xE0 && |b| >= 2 && Cont(b[1]) then 2
      else if 0xE0 <= b[0] < 0xF0 && |b| >= 3 && Cont(b[1]) && Cont(b[2])
              && (b[0] == 0xE0 ==> b[1] >= 0xA0) && (b[0] == 0xED ==> b[1] < 0xA0) then 3
      else if 0xF0 <= b[0] < 0xF5 && |b| >= 4 && Cont(b[1]) && Cont(b[2]) && Cont(b[3])
              && (b[0] == 0xF0 ==> b[1] >= 0x90) && (b[0] == 0xF4 ==> b[1] < 0x90) then 4
      else 0
  {
    var t := b[1..];
    assert |t| >= 1 ==> t[0] == b[1] && |t[1..]| == |b| - 2;
    assert |t| >= 2 ==> t[1..][0] == b[2];
    assert |t| >= 3 ==> t[2..][0] == b[3];
  }

  lemma Sextets(n: int)
    requires 0 <= n < 0x110000
    ensures n == n / 64 * 64 + n % 64
    ensures n / 64 == n / 4096 * 64 + n / 64 % 64
    ensures n / 4096 == n / 262144 * 64 + n / 4096 % 64
  {
  }

  lemma SextetsBack(a: int, x: int, y: int, z: int)
    requires 0 <= a < 8 && 0 <= x < 64 && 0 <= y < 64 && 0 <= z < 64
    ensures var n := a * 262144 + x * 4096 + y * 64 + z;
      n / 262144 == a && n / 4096 % 64 == x && n / 64 % 64 == y && n % 64 == z && n / 4096 == a * 64 + x && n / 64 == a * 4096 + x * 64 + y
  {
    var n := a * 262144 + x * 4096 + y * 64 + z;
    assert n / 64 == a * 4096 + x * 64 + y;
    assert n / 4096 == a * 64 + x;
  }

  /** A character's encoding is read as one character, and as that one. */
  lemma CharRead(c: char, rest: seq<Byte>)
    ensures Utf8Length(EncodeChar(c) + rest) == |EncodeChar(c)|
    ensures Utf8Char(EncodeChar(c) + rest) == c
  {
    var n := c as int;
    var b := EncodeChar(c) + rest;
    Sextets(n);
    LengthByBytes(b);
    hide Utf8Length;
    if n < 0x80 {
      assert b[0] == n as Byte;
    } else if n < 0x800 {
      CharRead2(n, b);
    } else if n < 0x10000 {
      CharRead3(n, b);
    } else {
      CharRead4(n, b);
    }
  }

  lemma CharRead2(n: int, b: seq<Byte>)
    requires 0x80 <= n < 0x800 && |b| >= 2 && b[0] as int == 0xC0 + n / 64 && b[1] as int == 0x80 + n % 64
    requires n == n / 64 * 64 + n % 64
    ensures 0xC2 <= b[0] < 0xE0 && Cont(b[1]) && (b[0] as int - 0xC0) * 64 + (b[1] as int - 0x80) == n
  {
  }

  lemma CharRead3(n: int, b: seq<Byte>)
    requires 0x800 <= n < 0x10000 && !(0xD800 <= n < 0xE000)
    requires |b| >= 3 && b[0] as int == 0xE0 + n / 4096 && b[1] as int == 0x80 + n / 64 % 64 && b[2] as int == 0x80 + n % 64
    requires n == n / 64 * 64 + n % 64 && n / 64 == n / 4096 * 64 + n / 64 % 64
    ensures 0xE0 <= b[0] < 0xF0 && Cont(b[1]) && Cont(b[2])
    ensures (b[0] == 0xE0 ==> b[1] >= 0xA0) && (b[0] == 0xED ==> b[1] < 0xA0)
    ensures (b[0] as int - 0xE0) * 4096 + (b[1] as int - 0x80) * 64 + (b[2] as int - 0x80) == n
  {
  }

  lemma CharRead4(n: int, b: seq<Byte>)
    requires 0x10000 <= n < 0x110000
    requires |b| >= 4 && b[0] as int == 0xF0 + n / 262144 && b[1] as int == 0x80 + n / 4096 % 64
    requires b[2] as int == 0x80 + n / 64 % 64 && b[3] as int == 0x80 + n % 64
    requires n == n / 64 * 64 + n % 64 && n / 64 == n / 4096 * 64 + n / 64 % 64 && n / 4096 == n / 262144 * 64 + n / 4096 % 64
    ensures 0xF0 <= b[0] < 0xF5 && Cont(b[1]) && Cont(b[2]) && Cont(b[3])
    ensures (b[0] == 0xF0 ==> b[1] >= 0x90) && (b[0] == 0xF4 ==> b[1] < 0x90)
    ensures (b[0] as int - 0xF0) * 262144 + (b[1] as int - 0x80) * 4096 + (b[2] as int - 0x80) * 64 + (b[3] as int - 0x80) == n
  {
  }

  /** What is read as one character is its encoding. */
  lemma CharWritten(b: seq<Byte>)
    requires b != [] && Utf8Length(b) > 0
    ensures Utf8Length(b) <= |b| && EncodeChar(Utf8Char(b)) == b[..Utf8Length(b)]
  {
    LengthByBytes(b);
    var c := Utf8Char(b);
    var k := Utf8Length(b);
    hide Utf8Length;
    if k == 2 {
      SextetsBack(0, 0, b[0] as int - 0xC0, b[1] as int - 0x80);
    } else if k == 3 {
      SextetsBack(0, b[0] as int - 0xE0, b[1] as int - 0x80, b[2] as int - 0x80);
    } else if k == 4 {
      SextetsBack(b[0] as int - 0xF0, b[1] as int - 0x80, b[2] as int - 0x80, b[3] as int - 0x80);
    }
  }

  lemma {:induction false} DecodeEncoded(s: string)
    ensures Decode(Encode(s)) == Some(s)
  {
    if s != "" {
      DecodeEncoded(s[1..]);
      CharRead(s[0], Encode(s[1..]));
      hide EncodeChar, Utf8Length, Utf8Char;
      assert Encode(s)[|EncodeChar(s[0])|..] == Encode(s[1..]);
      assert s == [s[0]] + s[1..];
    }
  }

  /** Decoding accepts the encodings of texts and nothing else. */
  lemma {:induction false} DecodeIff(b: seq<Byte>, s: string)
    ensures Decode(b) == Some(s) <==> b == Encode(s)
  {
    if b == Encode(s) {
      DecodeEncoded(s);
    }
    if b != [] && Decode(b) == Some(s) {
      var n := Utf8Length(b);
      CharWritten(b);
      hide EncodeChar, Utf8Length, Utf8Char;
      DecodeIff(b[n..], s[1..]);
      assert b == b[..n] + b[n..];
    }
  }

  // ---------- lines ----------

  ghost predicate CrlfAt(s: string, i: int) {
    0 <= i && i + 2 <= |s| && s[i] == '\r' && s[i + 1] == '\n'
  }

  ghost predicate NoCrlf(s: string) {
    forall i :: !CrlfAt(s, i)
  }

  function Joined(lines: seq<string>): string
    requires lines != []
  {
    if |lines| == 1 then lines[0] else lines[0] + "\r\n" + Joined(lines[1..])
  }

  lemma {:induction false} FindCrlfMeans(s: string)
    ensures match FindCrlf(s)
      case None => NoCrlf(s)
      case Some(i) => CrlfAt(s, i) && forall j :: j < i ==> !CrlfAt(s, j)
  {
    if |s| >= 2 && !CrlfAt(s, 0) {
      FindCrlfMeans(s[1..]);
      assert forall i :: i > 0 ==> (CrlfAt(s, i) <==> CrlfAt(s[1..], i - 1));
    }
  }

  /** A text's first CR LF comes right after its first line. */
  lemma FirstLine(line: string, rest: string)
    requires NoCrlf(line)
    ensures FindCrlf(line + "\r\n" + rest) == Some(|line|)
  {
    var s := line + "\r\n" + rest;
    FindCrlfMeans(s);
    hide FindCrlf;
    assert CrlfAt(s, |line|);
    assert forall j :: j < |line| - 1 ==> (CrlfAt(s, j) <==> CrlfAt(line, j));
    assert !CrlfAt(s, |line| - 1);
  }

  lemma {:induction false} JoinedLines(lines: seq<string>)
    requires lines != [] && forall i :: 0 <= i < |lines| ==> NoCrlf(lines[i])
    ensures Lines(Joined(lines)) == lines
  {
    if |lines| == 1 {
      FindCrlfMeans(lines[0]);
      hide FindCrlf;
    } else {
      var rest := Joined(lines[1..]);
      hide NoCrlf, FindCrlf;
      JoinedLines(lines[1..]);
      FirstLine(lines[0], rest);
      var s := lines[0] + "\r\n" + rest;
      assert s[..|lines[0]|] == lines[0] && s[|lines[0]| + 2..] == rest;
      assert lines == [lines[0]] + lines[1..];
    }
  }

  ghost predicate AllLines(lines: seq<string>) {
    forall i :: 0 <= i < |lines| ==> NoCrlf(lines[i])
  }

  lemma {:induction false} LinesJoin(s: string)
    ensures Joined(Lines(s)) == s && AllLines(Lines(s))
    decreases |s|
  {
    FindCrlfMeans(s);
    hide FindCrlf;
    if FindCrlf(s).Some? {
      var i := FindCrlf(s).value;
      LinesJoin(s[i + 2..]);
      assert s == s[..i] + "\r\n" + s[i + 2..];
      forall j ensures !CrlfAt(s[..i], j) {
        assert CrlfAt(s[..i], j) ==> CrlfAt(s, j);
      }
      hide NoCrlf;
      assert Lines(s)[1..] == Lines(s[i + 2..]);
    }
  }

  /** The lines of a text are what it is the joining of, none of them holding a CR LF. */
  lemma LinesIff(s: string, lines: seq<string>)
    requires lines != []
    ensures Lines(s) == lines <==> Joined(lines) == s && AllLines(lines)
  {
    LinesJoin(s);
    if Joined(lines) == s && AllLines(lines) {
      JoinedLines(lines);
    }
  }

  // ---------- words ----------

  ghost predicate Word(s: string) {
    s != "" && forall i :: 0 <= i < |s| ==> !IsSpace(s[i])
  }

  lemma {:induction false} WordEnds(w: string, rest: string)
    requires (forall i :: 0 <= i < |w| ==> !IsSpace(w[i])) && (rest == "" || IsSpace(rest[0]))
    ensures WordEnd(w + rest) == |w|
  {
    hide IsSpace;
    if w == "" {
      assert w + rest == rest;
    } else {
      assert (w + rest)[1..] == w[1..] + rest;
      WordEnds(w[1..], rest);
    }
  }

  lemma WordsNext(gap: string, w: string, rest: string)
    requires Gap(gap) && Word(w) && (rest == "" || IsSpace(rest[0]))
    ensures Words(gap + w + rest) == [w] + Words(rest)
  {
    var s := gap + w + rest;
    assert s == gap + (w + rest);
    TrimGap(gap, w + rest);
    WordEnds(w, rest);
    hide TrimStart, WordEnd, IsSpace;
    assert (w + rest)[..|w|] == w && (w + rest)[|w|..] == rest;
  }

  lemma WordsNone(gap: string)
    requires Gap(gap)
    ensures Words(gap) == []
  {
    assert gap + "" == gap;
    TrimGap(gap, "");
    hide TrimStart;
  }

  lemma {:induction false} TrimSplit(s: string) returns (gap: string)
    ensures Gap(gap) && s == gap + TrimStart(s) && (TrimStart(s) == "" || !IsSpace(TrimStart(s)[0]))
  {
    hide IsSpace;
    gap := "";
    if s != "" && IsSpace(s[0]) {
      gap := TrimSplit(s[1..]);
      assert s == [s[0]] + s[1..];
      gap := [s[0]] + gap;
    }
  }

  lemma {:induction false} WordSplit(s: string)
    ensures forall i :: 0 <= i < WordEnd(s) ==> !IsSpace(s[i])
    ensures WordEnd(s) < |s| ==> IsSpace(s[WordEnd(s)])
  {
    hide IsSpace;
    if s != "" && !IsSpace(s[0]) {
      WordSplit(s[1..]);
    }
  }

  /** A text is its words, each after a gap. */
  lemma WordsSplit(s: string) returns (gap: string, rest: string)
    ensures Words(s) == [] ==> Gap(s)
    ensures Words(s) != [] ==>
      Gap(gap) && Word(Words(s)[0]) && s == gap + Words(s)[0] + rest && (rest == "" || IsSpace(rest[0])) && Words(rest) == Words(s)[1..]
  {
    var t := TrimStart(s);
    gap := TrimSplit(s);
    rest := "";
    hide TrimStart, IsSpace;
    if t == "" {
      assert s == gap;
    } else {
      WordSplit(t);
      var n := WordEnd(t);
      rest := t[n..];
      assert t == t[..n] + rest;
    }
  }

  /** A request line: two words and a version, with white space between and around. */
  ghost predicate IsRequestLine(line: string, verb: string, target: string, version: string, a: string, b: string, c: string, d: string) {
    && Gap(a) && Gap(b) && b != "" && Gap(c) && c != "" && Gap(d) && Word(verb) && Word(target)
    && version in {"HTTP/1.0", "HTTP/1.1"} && line == a + verb + b + target + c + version + d
  }

  ghost predicate HasParts(line: string, verb: string, target: string) {
    exists version, a, b, c, d :: IsRequestLine(line, verb, target, version, a, b, c, d)
  }

  lemma VersionIsWord(version: string)
    requires version in {"HTTP/1.0", "HTTP/1.1"}
    ensures Word(version)
  {
  }

  lemma RequestLineRead(line: string, verb: string, target: string, version: string, a: string, b: string, c: string, d: string)
    requires IsRequestLine(line, verb, target, version, a, b, c, d)
    ensures Words(line) == [verb, target, version]
  {
    hide Words, IsSpace;
    var r3 := d;
    var r2 := c + version + d;
    var r1 := b + target + r2;
    assert line == a + verb + r1;
    VersionIsWord(version);
    WordsNext(a, verb, r1);
    WordsNext(b, target, r2);
    WordsNext(c, version, r3);
    WordsNone(d);
  }

  lemma RequestLineParts(line: string, verb: string, target: string, version: string)
    requires Words(line) == [verb, target, version] && version in {"HTTP/1.0", "HTTP/1.1"}
    ensures HasParts(line, verb, target)
  {
    hide Words, IsSpace;
    var a, r1 := WordsSplit(line);
    var b, r2 := WordsSplit(r1);
    var c, r3 := WordsSplit(r2);
    var d, r4 := WordsSplit(r3);
    NonemptyGap(b, target, r2, r1);
    NonemptyGap(c, version, r3, r2);
    assert IsRequestLine(line, verb, target, version, a, b, c, r3);
  }

  /** The first line is taken apart into method and target, in that order, if and only if it
      is a request line of HTTP 1.0 or 1.1. */
  lemma RequestLineIff(line: string, verb: string, target: string)
    ensures ParseRequestLine(line) == Ok((verb, target)) <==> HasParts(line, verb, target)
  {
    hide Words, HasParts, IsRequestLine;
    if HasParts(line, verb, target) {
      PartsRead(line, verb, target);
    }
    if ParseRequestLine(line) == Ok((verb, target)) {
      RequestLineParts(line, verb, target, Words(line)[2]);
    }
  }

  lemma PartsRead(line: string, verb: string, target: string)
    requires HasParts(line, verb, target)
    ensures ParseRequestLine(line) == Ok((verb, target))
  {
    var version, a, b, c, d :| IsRequestLine(line, verb, target, version, a, b, c, d);
    RequestLineRead(line, verb, target, version, a, b, c, d);
    hide Words;
  }

  lemma NonemptyGap(gap: string, w: string, rest: string, s: string)
    requires Word(w) && s == gap + w + rest && (s == "" || IsSpace(s[0]))
    ensures gap != ""
  {
    hide IsSpace;
    assert s[|gap|] == w[0];
  }

  // ---------- a request on the wire ----------

  /** Text that stays on one line. */
  ghost predicate OneLine(s: string) {
    forall i :: 0 <= i < |s| ==> s[i] != '\r' && s[i] != '\n'
  }

  datatype Field = Field(name: string, value: string)

  function FieldLine(f: Field): string {
    f.name + ":" + f.value
  }

  function HeadLines(verb: string, target: string, fields: seq<Field>): seq<string> {
    [verb + " " + target + " HTTP/1.1"] + seq(|fields|, i requires 0 <= i < |fields| => FieldLine(fields[i]))
  }

  /** The head of a request: its lines, each ended by CR LF, and an empty one. */
  function HeadText(verb: string, target: string, fields: seq<Field>): string {
    Joined(HeadLines(verb, target, fields) + ["", ""])
  }

  ghost predicate SoundField(f: Field) {
    OneLine(f.name) && OneLine(f.value) && ':' !in f.name
  }

  ghost predicate Sound(verb: string, target: string, fields: seq<Field>) {
    Word(verb) && Word(target) && forall i :: 0 <= i < |fields| ==> SoundField(fields[i])
  }

  /** The field's name, in any case of letters. */
  ghost predicate IsField(f: Field, name: string) {
    EqIgnoreCase(f.name, name)
  }

  lemma FieldNamed(f: Field, name: string)
    requires SoundField(f)
    ensures !Malformed(FieldLine(f)) && (Named(FieldLine(f), name) <==> IsField(f, name))
    ensures Named(FieldLine(f), "content-length") ==> LengthOf(FieldLine(f)) == ParseUsize(Trim(f.value))
  {
    var line := FieldLine(f);
    assert line[|f.name|] == ':' && forall i :: 0 <= i < |f.name| ==> line[i] == f.name[i];
    assert forall i :: 0 <= i < |f.name| ==> line[i] != ':' by {
      assert forall i :: 0 <= i < |f.name| ==> f.name[i] in f.name;
    }
    assert IndexOf(line, ':') == |f.name|;
    assert line[..|f.name|] == f.name && line[|f.name| + 1..] == f.value;
    hide IndexOf, Lower, Trim, ParseUsize;
  }

  /** The fields announce n body bytes: one of them says so, or none speaks of a length. */
  ghost predicate Announces(fields: seq<Field>, n: nat) {
    && (forall i :: 0 <= i < |fields| ==> !IsField(fields[i], "transfer-encoding"))
    && ((n == 0 && forall i :: 0 <= i < |fields| ==> !IsField(fields[i], "content-length"))
        || HasLength(fields, n))
  }

  ghost predicate HasLength(fields: seq<Field>, n: nat) {
    exists k: nat :: OnlyField(fields, k, n)
  }

  ghost predicate OnlyField(fields: seq<Field>, k: nat, n: nat) {
    && k < |fields| && IsField(fields[k], "content-length") && ParseUsize(Trim(fields[k].value)) == Some(n)
    && forall i :: 0 <= i < |fields| && i != k ==> !IsField(fields[i], "content-length")
  }

  function AllHeadLines(verb: string, target: string, fields: seq<Field>): seq<string> {
    HeadLines(verb, target, fields) + ["", ""]
  }

  ghost predicate AllOne(lines: seq<string>) {
    forall i :: 0 <= i < |lines| ==> OneLine(lines[i]) && lines[i] != ""
  }

  lemma HeadLinesOne(verb: string, target: string, fields: seq<Field>)
    requires Sound(verb, target, fields)
    ensures AllOne(HeadLines(verb, target, fields))
  {
    var lines := HeadLines(verb, target, fields);
    forall i | 0 <= i < |lines| ensures OneLine(lines[i]) && lines[i] != "" {
      if i == 0 {
        WordOnOneLine(verb);
        WordOnOneLine(target);
        hide Word;
      } else {
        assert SoundField(fields[i - 1]);
      }
    }
  }

  lemma WordOnOneLine(w: string)
    requires Word(w)
    ensures OneLine(w)
  {
  }

  /** The lines of the head are read back. */
  lemma HeadLinesRead(verb: string, target: string, fields: seq<Field>)
    requires Sound(verb, target, fields)
    ensures Lines(HeadText(verb, target, fields)) == AllHeadLines(verb, target, fields)
  {
    HeadLinesOne(verb, target, fields);
    var lines := AllHeadLines(verb, target, fields);
    forall i | 0 <= i < |lines| ensures NoCrlf(lines[i]) {
      assert OneLine(lines[i]) by {
        if i < |fields| + 1 { assert lines[i] == HeadLines(verb, target, fields)[i]; }
      }
    }
    hide NoCrlf, Lines, Joined, HeadLines;
    JoinedLines(lines);
  }

  ghost predicate AllFields(lines: seq<string>, fields: seq<Field>) {
    && |lines| == |fields| + 3 && lines[|fields| + 1] == "" && lines[|fields| + 2] == ""
    && forall i :: 0 <= i < |fields| ==> lines[i + 1] == FieldLine(fields[i]) && SoundField(fields[i])
  }

  /** A line reads as the field it was written for. */
  ghost predicate Reads(line: string, f: Field) {
    && !Malformed(line)
    && (Named(line, "transfer-encoding") <==> IsField(f, "transfer-encoding"))
    && (Named(line, "content-length") <==> IsField(f, "content-length"))
    && (Named(line, "content-length") ==> LengthOf(line) == ParseUsize(Trim(f.value)))
  }

  /** The lines from the second on read as the fields, the last two as nothing. */
  ghost predicate AllRead(lines: seq<string>, fields: seq<Field>) {
    && |lines| == |fields| + 3
    && (forall i :: 0 <= i < |fields| ==> Reads(lines[i + 1], fields[i]))
    && (forall j :: |fields| < j < |lines| ==> Silent(lines[j]))
  }

  ghost predicate Silent(line: string) {
    !Malformed(line) && !Named(line, "transfer-encoding") && !Named(line, "content-length")
  }

  lemma FieldsRead(lines: seq<string>, fields: seq<Field>)
    requires AllFields(lines, fields)
    ensures AllRead(lines, fields)
  {
    forall i | 0 <= i < |fields| ensures Reads(lines[i + 1], fields[i]) {
      FieldNamed(fields[i], "transfer-encoding");
      FieldNamed(fields[i], "content-length");
    }
    assert Silent("");
    hide Silent, Reads;
  }

  ghost predicate CleanField(f: Field) {
    !IsField(f, "transfer-encoding") && (IsField(f, "content-length") ==> ParseUsize(Trim(f.value)).Some?)
  }

  lemma LinesClean(lines: seq<string>, fields: seq<Field>)
    requires AllRead(lines, fields)
    ensures CleanFrom(lines, 1) <==> forall i :: 0 <= i < |fields| ==> CleanField(fields[i])
    ensures NoLengthFrom(lines, 1) <==> forall i :: 0 <= i < |fields| ==> !IsField(fields[i], "content-length")
  {
    hide Malformed, Named, IsField, LengthOf, ParseUsize, Trim;
    forall j | 1 <= j < |lines| ensures Silent(lines[j]) || (j - 1 < |fields| && Reads(lines[j], fields[j - 1])) {
    }
    forall i | 0 <= i < |fields| ensures Reads(lines[i + 1], fields[i]) {
    }
  }

  lemma LinesLength(lines: seq<string>, fields: seq<Field>, n: nat)
    requires AllRead(lines, fields)
    ensures OneLength(lines, 1, n) <==> HasLength(fields, n)
  {
    hide Malformed, Named, IsField, LengthOf, ParseUsize, Trim;
    forall j | 1 <= j < |lines| ensures Silent(lines[j]) || (j - 1 < |fields| && Reads(lines[j], fields[j - 1])) {
    }
    if OneLength(lines, 1, n) {
      var k: nat :| OnlyLength(lines, 1, k, n);
      assert OnlyField(fields, k - 1, n);
    }
    if HasLength(fields, n) {
      var k: nat :| OnlyField(fields, k, n);
      assert OnlyLength(lines, 1, k + 1, n);
    }
  }

  /** What the lines of the head announce is what its fields do. */
  lemma FieldsAnnounce(lines: seq<string>, fields: seq<Field>, n: nat)
    requires AllFields(lines, fields)
    ensures Announces(fields, n) <==> Announced(lines, 1, None) == Ok(Some(n)) || (n == 0 && Announced(lines, 1, None) == Ok(None))
  {
    FieldsRead(lines, fields);
    LinesClean(lines, fields);
    LinesLength(lines, fields, n);
    AnnouncedMeaning(lines, 1, n);
    if HasLength(fields, n) {
      var k: nat :| OnlyField(fields, k, n);
    }
    hide Announced, CleanFrom, NoLengthFrom, OneLength, IsField, Trim, ParseUsize, AllRead, AllFields;
  }

  /** The head of a request is read as its method, its target and the length its fields
      announce; one with several lengths, an unreadable one or a transfer encoding has none. */
  lemma HeadRead(verb: string, target: string, fields: seq<Field>, n: nat)
    requires Sound(verb, target, fields)
    ensures Announces(fields, n) <==> ParseHead(Encode(HeadText(verb, target, fields))) == Ok(Head(verb, target, n))
  {
    hide Decode, Encode, Lines, ParseRequestLine, Announced, Announces, HeadText, AllHeadLines, AllFields, Word;
    var text, lines := HeadText(verb, target, fields), AllHeadLines(verb, target, fields);
    DecodeEncoded(text);
    HeadLinesRead(verb, target, fields);
    FieldLines(verb, target, fields);
    FieldsAnnounce(lines, fields, n);
    FirstLineRead(verb, target, lines[0]);
  }

  lemma FieldLines(verb: string, target: string, fields: seq<Field>)
    requires Sound(verb, target, fields)
    ensures AllFields(AllHeadLines(verb, target, fields), fields)
    ensures AllHeadLines(verb, target, fields)[0] == verb + " " + target + " HTTP/1.1"
  {
  }

  lemma FirstLineRead(verb: string, target: string, line: string)
    requires Word(verb) && Word(target) && line == verb + " " + target + " HTTP/1.1"
    ensures ParseRequestLine(line) == Ok((verb, target))
  {
    assert line == "" + verb + " " + target + " " + "HTTP/1.1" + "";
    assert IsRequestLine(line, verb, target, "HTTP/1.1", "", " ", " ", "");
    hide IsRequestLine;
    RequestLineIff(line, verb, target);
  }

  // ---------- where the head ends ----------

  ghost predicate QuadAt(s: string, k: int) {
    CrlfAt(s, k) && CrlfAt(s, k + 2)
  }

  /** The first empty line of the head is its last. */
  lemma {:induction false} OneQuad(lines: seq<string>, k: int)
    requires lines != [] && AllOne(lines) && QuadAt(Joined(lines + ["", ""]), k)
    ensures k == |Joined(lines + ["", ""])| - 4
    decreases |lines|
  {
    var l, rest := lines[0], lines[1..];
    var tail := Joined(rest + ["", ""]);
    assert (lines + ["", ""])[1..] == rest + ["", ""];
    var s := l + "\r\n" + tail;
    assert s == Joined(lines + ["", ""]);
    assert forall i :: 0 <= i < |l| ==> s[i] == l[i];
    if rest == [] {
      assert rest + ["", ""] == ["", ""] && Joined(["", ""]) == "\r\n";
    } else {
      assert tail[0] == rest[0][0] && OneLine(rest[0]);
      assert s[|l| + 2] == tail[0];
      assert k >= |l| + 2;
      assert QuadAt(tail, k - |l| - 2);
      OneQuad(rest, k - |l| - 2);
    }
  }

  /** A control byte is the encoding of its character, and no part of another's. */
  lemma ControlByte(c: char, i: nat)
    requires i < |EncodeChar(c)| && (EncodeChar(c)[i] == CR || EncodeChar(c)[i] == LF)
    ensures i == 0 && |EncodeChar(c)| == 1 && c as int == EncodeChar(c)[0] as int
  {
  }

  lemma FirstByte(s: string, x: Byte)
    requires s != "" && (x == CR || x == LF) && Encode(s)[0] == x
    ensures s[0] as int == x as int && Encode(s)[1..] == Encode(s[1..])
  {
    assert Encode(s)[0] == EncodeChar(s[0])[0];
    ControlByte(s[0], 0);
    hide EncodeChar;
  }

  /** A blank line in the encoding of a text is one in the text. */
  lemma {:induction false} BlankInText(s: string, rest: seq<Byte>, i: nat) returns (k: nat)
    requires BlankAt(Encode(s) + rest, i) && i + 4 <= |Encode(s)|
    ensures QuadAt(s, k) && k <= |s| && i == |Encode(s[..k])|
  {
    NonemptyText(s);
    if i < |EncodeChar(s[0])| {
      BlankNow(s, rest, i);
      k := 0;
    } else {
      BlankLater(s, rest, i);
      hide Encode, EncodeChar, BlankAt, QuadAt;
      var m := BlankInText(s[1..], rest, i - |EncodeChar(s[0])|);
      k := m + 1;
      QuadLater(s, m);
    }
  }

  lemma BlankNow(s: string, rest: seq<Byte>, i: nat)
    requires s != "" && BlankAt(Encode(s) + rest, i) && i < |EncodeChar(s[0])| && i + 4 <= |Encode(s)|
    ensures i == 0 && QuadAt(s, 0) && |Encode(s[..0])| == 0
  {
    var b := Encode(s) + rest;
    assert b[i] == CR by { assert b[i..i + 4][0] == CR; }
    assert b[i] == EncodeChar(s[0])[i];
    ControlByte(s[0], i);
    hide EncodeChar;
    BlankStart(s, b);
  }

  lemma BlankLater(s: string, rest: seq<Byte>, i: nat)
    requires s != "" && BlankAt(Encode(s) + rest, i) && |EncodeChar(s[0])| <= i && i + 4 <= |Encode(s)|
    ensures var n := |EncodeChar(s[0])|; BlankAt(Encode(s[1..]) + rest, i - n) && i - n + 4 <= |Encode(s[1..])|
  {
    hide EncodeChar;
    var n, tail := |EncodeChar(s[0])|, Encode(s[1..]) + rest;
    assert Encode(s) == EncodeChar(s[0]) + Encode(s[1..]);
    hide Encode;
    assert Encode(s) + rest == EncodeChar(s[0]) + tail;
    assert tail[i - n..i - n + 4] == (Encode(s) + rest)[i..i + 4];
  }

  lemma QuadLater(s: string, m: nat)
    requires s != "" && QuadAt(s[1..], m) && m <= |s[1..]|
    ensures QuadAt(s, m + 1) && m + 1 <= |s| && |Encode(s[..m + 1])| == |EncodeChar(s[0])| + |Encode(s[1..][..m])|
  {
    hide EncodeChar;
    assert s[..m + 1][1..] == s[1..][..m];
  }

  lemma BlankStart(s: string, b: seq<Byte>)
    requires s != "" && BlankAt(b, 0) && |Encode(s)| >= 4 && |b| >= |Encode(s)| && b[..|Encode(s)|] == Encode(s)
    ensures QuadAt(s, 0)
  {
    var e := Encode(s);
    hide Encode;
    assert b[0..4] == e[..4];
    assert e[0] == CR && e[1] == LF && e[2] == CR && e[3] == LF;
    FirstByte(s, CR);
    NonemptyText(s[1..]);
    FirstByte(s[1..], LF);
    NonemptyText(s[1..][1..]);
    FirstByte(s[1..][1..], CR);
    NonemptyText(s[1..][1..][1..]);
    FirstByte(s[1..][1..][1..], LF);
  }

  lemma NonemptyText(s: string)
    ensures Encode(s) != [] ==> s != ""
  {
  }

  lemma {:induction false} EncodeAppend(a: string, b: string)
    ensures Encode(a + b) == Encode(a) + Encode(b)
  {
    hide EncodeChar;
    if a == "" {
      assert a + b == b;
    } else {
      assert (a + b)[1..] == a[1..] + b;
      EncodeAppend(a[1..], b);
    }
  }

  lemma QuadBytes()
    ensures Encode("\r\n\r\n") == [CR, LF, CR, LF]
  {
    assert Encode("\n") == [LF];
    assert Encode("\r\n") == [CR] + Encode("\n");
    assert Encode("\n\r\n") == [LF] + Encode("\r\n");
  }

  lemma {:induction false} JoinedEnds(lines: seq<string>)
    requires lines != []
    ensures var s := Joined(lines + ["", ""]); |s| >= 4 && s == s[..|s| - 4] + "\r\n\r\n"
  {
    var rest := lines[1..];
    assert (lines + ["", ""])[1..] == rest + ["", ""];
    if rest == [] {
      assert rest + ["", ""] == ["", ""] && Joined(["", ""]) == "\r\n";
    } else {
      JoinedEnds(rest);
    }
  }

  /** The head ends where its text does: at the first blank line of the stream. */
  lemma HeadEnds(verb: string, target: string, fields: seq<Field>, rest: seq<Byte>)
    requires Sound(verb, target, fields)
    ensures var e := Encode(HeadText(verb, target, fields)); |e| >= 4 && FindBlank(e + rest, 0) == Some((|e| - 4) as nat)
  {
    var lines := HeadLines(verb, target, fields);
    HeadLinesOne(verb, target, fields);
    var text := HeadText(verb, target, fields);
    JoinedEnds(lines);
    hide Joined, HeadLines;
    var init := text[..|text| - 4];
    EncodeAppend(init, "\r\n\r\n");
    QuadBytes();
    hide Encode, FindBlank;
    var e := Encode(text);
    var stream := e + rest;
    assert stream[|e| - 4..|e|] == [CR, LF, CR, LF];
    assert BlankAt(stream, |e| - 4);
    var i := FindBlank(stream, 0).value;
    if i < |e| - 4 {
      var k := BlankInText(text, rest, i);
      OneQuad(lines, k);
    }
  }

  /** A well-formed request is read as what it says: its method, its target and the bytes its
      fields announce, unless its head or its body is too long or bytes are missing. */
  lemma RequestRead(verb: string, target: string, fields: seq<Field>, n: nat, rest: seq<Byte>, limit: nat)
    requires Sound(verb, target, fields) && Announces(fields, n)
    ensures var head := Encode(HeadText(verb, target, fields));
      Whole(head + rest, limit) ==
        if |head| > MAX_HEADER then Err(HeadersTooLarge)
        else if n > limit then Err(BodyTooLarge)
        else if |rest| < n then Err(ClosedBeforeBody)
        else Ok(Request(verb, target, rest[..n]))
  {
    hide Encode, FindBlank, ParseHead, HeadText, Announces, Sound;
    var head := Encode(HeadText(verb, target, fields));
    HeadRead(verb, target, fields, n);
    HeadEnds(verb, target, fields, rest);
    var stream := head + rest;
    assert stream[..|head|] == head;
    assert |rest| >= n ==> stream[|head|..|head| + n] == rest[..n];
  }

  /** One whose fields announce no single length is refused. */
  lemma RequestRefused(verb: string, target: string, fields: seq<Field>, rest: seq<Byte>, limit: nat)
    requires Sound(verb, target, fields) && forall n :: !Announces(fields, n)
    ensures Whole(Encode(HeadText(verb, target, fields)) + rest, limit).Err?
  {
    var head := Encode(HeadText(verb, target, fields));
    HeadEnds(verb, target, fields, rest);
    assert (head + rest)[..|head|] == head;
    if ParseHead(head).Ok? {
      HeadVerb(verb, target, fields);
      HeadRead(verb, target, fields, ParseHead(head).value.length);
    }
    hide Encode, FindBlank, ParseHead, HeadText, Announces;
  }

  lemma HeadVerb(verb: string, target: string, fields: seq<Field>)
    requires Sound(verb, target, fields) && ParseHead(Encode(HeadText(verb, target, fields))).Ok?
    ensures var h := ParseHead(Encode(HeadText(verb, target, fields))).value; h.verb == verb && h.target == target
  {
    var text, lines := HeadText(verb, target, fields), AllHeadLines(verb, target, fields);
    DecodeEncoded(text);
    HeadLinesRead(verb, target, fields);
    FieldLines(verb, target, fields);
    FirstLineRead(verb, target, lines[0]);
    hide Decode, Encode, Lines, ParseRequestLine, Announced, HeadText;
  }

  /** The same of the reader, for every cut of the bytes into reads. */
  method ReadRendered(verb: string, target: string, fields: seq<Field>, ghost n: nat, rest: seq<Byte>, chunks: seq<seq<Byte>>, limit: nat)
    returns (r: Result<Request>)
    requires Sound(verb, target, fields) && Announces(fields, n)
    requires Cut(chunks) && Flatten(chunks) == Encode(HeadText(verb, target, fields)) + rest
    ensures |Encode(HeadText(verb, target, fields))| <= MAX_HEADER && n <= limit && n <= |rest| && limit >= CHUNK - 1 ==>
      r == Ok(Request(verb, target, rest[..n]))
  {
    r := ReadRequest(chunks, limit);
    RequestRead(verb, target, fields, n, rest, limit);
  }
}
