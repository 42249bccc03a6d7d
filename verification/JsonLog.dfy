/**
 Structured log lines: the in-place escaping of the message, and when a JSON reader (RFC 8259)
 gets back from a line exactly what was logged. A character is a byte.
 */
module JsonLog {
  import opened Wrappers

  predicate NeedsEscape(c: char) { c == '\\' || c == '"' }

  function EscapeChar(c: char): string { if NeedsEscape(c) then ['\\', c] else [c] }

  function Escape(m: string): string {
    if m == "" then "" else EscapeChar(m[0]) + Escape(m[1..])
  }

  lemma {:induction false} EscapeAppend(a: string, b: string)
    ensures Escape(a + b) == Escape(a) + Escape(b)
  {
    hide EscapeChar;
    if a == "" {
      assert a + b == b;
    } else {
      EscapeAppend(a[1..], b);
      assert (a + b)[1..] == a[1..] + b;
      assert Escape(a) + Escape(b) == EscapeChar(a[0]) + (Escape(a[1..]) + Escape(b));
    }
  }

  lemma EscapeOne(c: char)
    ensures Escape([c]) == EscapeChar(c)
  {
    assert [c][1..] == "";
  }

  /** One character of the message: what the string looks like before and after it. */
  lemma EscapeStep(message: string, k: nat, escaped: string)
    requires k < |message| && escaped == Escape(message[..k]) + message[k..]
    ensures var i := |Escape(message[..k])|;
            var c := message[k];
            && escaped[i] == c
            && Escape(message[..k + 1]) == Escape(message[..k]) + EscapeChar(c)
            && (if NeedsEscape(c) then escaped[..i] + ['\\'] + escaped[i..] else escaped)
               == Escape(message[..k + 1]) + message[k + 1..]
  {
    hide Escape;
    assert message[..k + 1] == message[..k] + [message[k]];
    assert message[k..] == [message[k]] + message[k + 1..];
    EscapeAppend(message[..k], [message[k]]);
    EscapeOne(message[k]);
  }

  /** Inserts a backslash before each quote and backslash, in the string it is reading. */
  method EscapeInPlace(message: string) returns (escaped: string)
    ensures escaped == Escape(message)
  {
    escaped := message;
    var i := 0;
    ghost var k := 0;  // characters of the message passed
    while i < |escaped|
      invariant 0 <= k <= |message|
      invariant i == |Escape(message[..k])|
      invariant escaped == Escape(message[..k]) + message[k..]
      decreases |escaped| - i
    {
      EscapeStep(message, k, escaped);
      if escaped[i] == '\\' || escaped[i] == '"' {
        escaped := escaped[..i] + ['\\'] + escaped[i..];
        i := i + 1;
      }
      i := i + 1;
      k := k + 1;
    }
    assert message[..k] == message;
  }

  // ---------------------------------------------------------------- a reader of JSON strings

  predicate Control(c: char) { c < ' ' }

  predicate NoControl(s: string) { forall c :: c in s ==> !Control(c) }

  predicate NoSpecial(s: string) { forall c :: c in s ==> !NeedsEscape(c) }

  function HexValue(c: char): (v: int)
    ensures -1 <= v < 16
  {
    if '0' <= c <= '9' then c as int - '0' as int
    else if 'a' <= c <= 'f' then c as int - 'a' as int + 10
    else if 'A' <= c <= 'F' then c as int - 'A' as int + 10
    else -1
  }

  /** The bytes of a code point given by four hexadecimal digits; surrogates are refused. */
  function Unicode(hex: string): (bytes: Option<string>)
    requires |hex| == 4
    ensures bytes.Some? ==> |bytes.value| <= 3
  {
    var a, b, c, d := HexValue(hex[0]), HexValue(hex[1]), HexValue(hex[2]), HexValue(hex[3]);
    if a < 0 || b < 0 || c < 0 || d < 0 then None
    else
      var v := a * 0x1000 + b * 0x100 + c * 0x10 + d;
      if v < 0x80 then Some([v as char])
      else if v < 0x800 then Some([(0xC0 + v / 0x40) as char, (0x80 + v % 0x40) as char])
      else if 0xD800 <= v < 0xE000 then None
      else Some([(0xE0 + v / 0x1000) as char, (0x80 + v / 0x40 % 0x40) as char, (0x80 + v % 0x40) as char])
  }

  /** What a two-character escape stands for. */
  function Escaped(c: char): Option<char> {
    match c
    case '"' => Some('"')
    case '\\' => Some('\\')
    case '/' => Some('/')
    case 'b' => Some(8 as char)
    case 'f' => Some(12 as char)
    case 'n' => Some(10 as char)
    case 'r' => Some(13 as char)
    case 't' => Some(9 as char)
    case _ => None
  }

  /** What was read, and what follows it. */
  datatype Piece = Piece(text: string, rest: string)

  function After(prefix: string, p: Option<Piece>): Option<Piece> {
    if p.None? then None else Some(Piece(prefix + p.value.text, p.value.rest))
  }

  /** Reads the string whose opening quote was just passed, up to its closing quote. */
  function ReadString(s: string): Option<Piece> {
    if s == "" then None
    else if s[0] == '"' then Some(Piece("", s[1..]))
    else if Control(s[0]) then None
    else if s[0] != '\\' then After([s[0]], ReadString(s[1..]))
    else if |s| < 2 then None
    else if s[1] == 'u' then
      if |s| < 6 || Unicode(s[2..6]).None? then None else After(Unicode(s[2..6]).value, ReadString(s[6..]))
    else if Escaped(s[1]).None? then None
    else After([Escaped(s[1]).value], ReadString(s[2..]))
  }

  /**
   An escaped message is read back exactly if it has no control character, and then the string
   ends at its own closing quote, whatever follows.
   */
  lemma {:induction false} ReadEscaped(m: string, rest: string)
    ensures ReadString(Escape(m) + "\"" + rest) == if NoControl(m) then Some(Piece(m, rest)) else None
  {
    hide ReadString, EscapeChar;
    if m == "" {
      EndOfString(rest);
      assert Escape(m) + "\"" + rest == "\"" + rest;
    } else {
      var tail := Escape(m[1..]) + "\"" + rest;
      ReadEscaped(m[1..], rest);
      ReadEscapedChar(m[0], tail);
      assert Escape(m) + "\"" + rest == EscapeChar(m[0]) + tail;
      assert m == [m[0]] + m[1..];
    }
  }

  lemma EndOfString(rest: string)
    ensures ReadString("\"" + rest) == Some(Piece("", rest))
  {
  }

  lemma ReadEscapedChar(c: char, tail: string)
    ensures ReadString(EscapeChar(c) + tail) == if Control(c) then None else After([c], ReadString(tail))
  {
    var s := EscapeChar(c) + tail;
    assert s[|EscapeChar(c)|..] == tail;
  }

  lemma {:induction false} EscapeLength(s: string)
    ensures |s| <= |Escape(s)| <= 2 * |s|
    ensures |Escape(s)| == |s| <==> NoSpecial(s)
    ensures NoSpecial(s) ==> Escape(s) == s
  {
    if s != "" {
      EscapeLength(s[1..]);
      assert s == [s[0]] + s[1..];
    }
  }

  /** No text can be written in fewer characters than the escaping writes it. */
  lemma {:induction false} EscapeIsShortest(s: string)
    ensures var p := ReadString(s); p.Some? ==> |s| >= |Escape(p.value.text)| + 1 + |p.value.rest|
  {
    if ReadString(s).None? || s[0] == '"' {
    } else if s[0] != '\\' {
      EscapeIsShortest(s[1..]);
      ShortestStep([s[0]], ReadString(s[1..]).value);
      EscapeOne(s[0]);
    } else if s[1] == 'u' {
      EscapeIsShortest(s[6..]);
      ShortestStep(Unicode(s[2..6]).value, ReadString(s[6..]).value);
    } else {
      EscapeIsShortest(s[2..]);
      ShortestStep([Escaped(s[1]).value], ReadString(s[2..]).value);
    }
  }

  lemma ShortestStep(prefix: string, p: Piece)
    ensures |Escape(prefix + p.text)| <= 2 * |prefix| + |Escape(p.text)|
    ensures |Escape(prefix + p.text)| == |Escape(prefix)| + |Escape(p.text)|
  {
    EscapeAppend(prefix, p.text);
    EscapeLength(prefix);
  }

  // ---------------------------------------------------------------- whole lines

  predicate Digit(c: char) { '0' <= c <= '9' }

  type Digits = s: string | s != "" && forall c :: c in s ==> Digit(c) witness "0"

  datatype Source = Source(file: string, line: Digits)

  datatype Record = Record(ts: string, level: string, thread: string, source: Option<Source>, msg: string)

  const TS := "{\"ts\":\""
  const LEVEL := ",\"level\":\""
  const THREAD := ",\"thread\":\""
  const SOURCE := ",\"source\":{\"file\":\""
  const LINE := ",\"line\":"
  const MSG := ",\"msg\":\""

  function Member(prefix: string, text: string, rest: string): string { prefix + (text + "\"" + rest) }

  function FormatMessage(r: Record): string {
    Member(TS, r.ts, Member(LEVEL, r.level, Member(THREAD, r.thread, FormatSource(r.source, Member(MSG, Escape(r.msg), "}")))))
  }

  /** The position in the source, if there is one; its file name is not escaped. */
  function FormatSource(source: Option<Source>, rest: string): string {
    if source.None? then rest else Member(SOURCE, source.value.file, LINE + (source.value.line + ("}" + rest)))
  }

  function ReadLiteral(s: string, literal: string): Option<string> {
    if literal <= s then Some(s[|literal|..]) else None
  }

  function ReadMember(s: string, prefix: string): Option<Piece> {
    var t :- ReadLiteral(s, prefix);
    ReadString(t)
  }

  /** The longest run of digits at the front. */
  function ReadDigits(s: string): (p: Piece)
    ensures s == p.text + p.rest
    ensures forall c :: c in p.text ==> Digit(c)
  {
    if s == "" || !Digit(s[0]) then Piece("", s)
    else
      var p := ReadDigits(s[1..]);
      Piece([s[0]] + p.text, p.rest)
  }

  datatype SourcePiece = SourcePiece(source: Option<Source>, rest: string)

  function ReadSource(s: string): Option<SourcePiece> {
    if !(SOURCE <= s) then Some(SourcePiece(None, s))
    else
      var file :- ReadMember(s, SOURCE);
      var t :- ReadLiteral(file.rest, LINE);
      var line := ReadDigits(t);
      if line.text == "" then None
      else
        var rest :- ReadLiteral(line.rest, "}");
        Some(SourcePiece(Some(Source(file.text, line.text)), rest))
  }

  function ReadRecord(s: string): Option<Record> {
    var ts :- ReadMember(s, TS);
    var level :- ReadMember(ts.rest, LEVEL);
    var thread :- ReadMember(level.rest, THREAD);
    var source :- ReadSource(thread.rest);
    var msg :- ReadMember(source.rest, MSG);
    if msg.rest == "}" then Some(Record(ts.text, level.text, thread.text, source.source, msg.text)) else None
  }

  lemma MemberFlat(before: string, prefix: string, text: string, rest: string)
    ensures before + Member(prefix, text, rest) == before + prefix + text + "\"" + rest
  {
  }

  function SourceText(source: Option<Source>): string {
    if source.None? then ""
    else ",\"source\":{\"file\":\"" + source.value.file + "\"" + ",\"line\":" + source.value.line + "}"
  }

  lemma SourceFlat(source: Option<Source>, rest: string)
    ensures FormatSource(source, rest) == SourceText(source) + rest
  {
    if source.Some? {
      MemberFlat("", SOURCE, source.value.file, LINE + (source.value.line + ("}" + rest)));
    }
  }

  /** The whole line, written out. */
  lemma LineWritten(r: Record)
    ensures FormatMessage(r) ==
            "{\"ts\":\"" + r.ts + "\"" + ",\"level\":\"" + r.level + "\"" + ",\"thread\":\"" + r.thread + "\""
            + SourceText(r.source) + ",\"msg\":\"" + Escape(r.msg) + "\"" + "}"
  {
    hide Member, SourceText, FormatSource, Escape;
    var m := Member(MSG, Escape(r.msg), "}");
    var source := FormatSource(r.source, m);
    var thread := Member(THREAD, r.thread, source);
    var level := Member(LEVEL, r.level, thread);
    var first := TS + r.ts + "\"";
    var second := first + LEVEL + r.level + "\"";
    var third := second + THREAD + r.thread + "\"";
    MemberFlat("", TS, r.ts, level);
    MemberFlat(first, LEVEL, r.level, thread);
    MemberFlat(second, THREAD, r.thread, source);
    SourceFlat(r.source, m);
    MemberFlat(third + SourceText(r.source), MSG, Escape(r.msg), "}");
    assert third + (SourceText(r.source) + m) == third + SourceText(r.source) + m;
    assert "" + Member(TS, r.ts, level) == Member(TS, r.ts, level) && "" + TS == TS;
  }

  // ---------------------------------------------------------------- when a line reads back

  lemma ReadUnescaped(prefix: string, text: string, rest: string)
    requires NoSpecial(text)
    ensures ReadMember(Member(prefix, text, rest), prefix) == if NoControl(text) then Some(Piece(text, rest)) else None
  {
    EscapeLength(text);
    ReadEscaped(text, rest);
    assert Member(prefix, text, rest)[|prefix|..] == text + "\"" + rest;
  }

  lemma ReadMessage(m: string)
    ensures ReadMember(Member(MSG, Escape(m), "}"), MSG) == if NoControl(m) then Some(Piece(m, "}")) else None
  {
    ReadEscaped(m, "}");
    assert Member(MSG, Escape(m), "}")[|MSG|..] == Escape(m) + "\"" + "}";
  }

  lemma {:induction false} ReadAllDigits(line: string, tail: string)
    requires forall c :: c in line ==> Digit(c)
    requires tail != "" && !Digit(tail[0])
    ensures ReadDigits(line + tail) == Piece(line, tail)
  {
    if line == "" {
      assert line + tail == tail;
    } else {
      assert line == [line[0]] + line[1..];
      assert (line + tail)[1..] == line[1..] + tail;
      ReadAllDigits(line[1..], tail);
    }
  }

  lemma ReadFormattedSource(source: Source, rest: string)
    requires NoSpecial(source.file)
    ensures ReadSource(FormatSource(Some(source), rest)) ==
            if NoControl(source.file) then Some(SourcePiece(Some(source), rest)) else None
  {
    var tail := LINE + (source.line + ("}" + rest));
    ReadUnescaped(SOURCE, source.file, tail);
    ReadAllDigits(source.line, "}" + rest);
    assert tail[|LINE|..] == source.line + ("}" + rest);
    assert ("}" + rest)[1..] == rest;
  }

  lemma NoSourceInMessage(text: string)
    ensures ReadSource(Member(MSG, text, "}")) == Some(SourcePiece(None, Member(MSG, text, "}")))
  {
    assert Member(MSG, text, "}")[2] == 'm' && SOURCE[2] == 's';
  }

  predicate FieldsNoSpecial(r: Record) {
    NoSpecial(r.ts) && NoSpecial(r.level) && NoSpecial(r.thread) && (r.source.Some? ==> NoSpecial(r.source.value.file))
  }

  predicate FieldsNoControl(r: Record) {
    && NoControl(r.ts) && NoControl(r.level) && NoControl(r.thread)
    && (r.source.Some? ==> NoControl(r.source.value.file)) && NoControl(r.msg)
  }

  lemma ReadSourceAndMessage(r: Record)
    requires FieldsNoSpecial(r)
    ensures var tail := Member(MSG, Escape(r.msg), "}");
            ReadSource(FormatSource(r.source, tail)) ==
            if r.source.Some? && !NoControl(r.source.value.file) then None else Some(SourcePiece(r.source, tail))
  {
    if r.source.Some? {
      ReadFormattedSource(r.source.value, Member(MSG, Escape(r.msg), "}"));
    } else {
      NoSourceInMessage(Escape(r.msg));
    }
  }

  lemma UnescapedReadsBackIff(r: Record)
    requires FieldsNoSpecial(r)
    ensures ReadRecord(FormatMessage(r)) == if FieldsNoControl(r) then Some(r) else None
  {
    hide Member, FormatSource, ReadMember, ReadSource, Escape;
    var m := Member(MSG, Escape(r.msg), "}");
    var source := FormatSource(r.source, m);
    var thread := Member(THREAD, r.thread, source);
    var level := Member(LEVEL, r.level, thread);
    ReadUnescaped(TS, r.ts, level);
    ReadUnescaped(LEVEL, r.level, thread);
    ReadUnescaped(THREAD, r.thread, source);
    ReadSourceAndMessage(r);
    ReadMessage(r.msg);
  }

  // A line that reads back cannot be shorter than one with every field escaped.

  lemma MemberLength(s: string, prefix: string)
    ensures var p := ReadMember(s, prefix);
            p.Some? ==> |s| >= |prefix| + |Escape(p.value.text)| + 1 + |p.value.rest|
  {
    if prefix <= s {
      EscapeIsShortest(s[|prefix|..]);
    }
  }

  function SourceLength(source: Option<Source>, escaped: bool): nat {
    if source.None? then 0
    else |SOURCE| + |LINE| + |source.value.line| + 2 + |if escaped then Escape(source.value.file) else source.value.file|
  }

  lemma SourceIsShortest(s: string)
    ensures var p := ReadSource(s); p.Some? ==> |s| >= SourceLength(p.value.source, true) + |p.value.rest|
  {
    if ReadSource(s).Some? && ReadSource(s).value.source.Some? {
      MemberLength(s, SOURCE);
    }
  }

  /** The length of a line, counted as if the four unescaped fields were escaped or as they are. */
  function LineLength(r: Record, escaped: bool): nat {
    |TS| + |LEVEL| + |THREAD| + |MSG| + 5 + |Escape(r.msg)| + SourceLength(r.source, escaped)
    + |if escaped then Escape(r.ts) else r.ts|
    + |if escaped then Escape(r.level) else r.level|
    + |if escaped then Escape(r.thread) else r.thread|
  }

  lemma RecordIsShortest(s: string)
    ensures var r := ReadRecord(s); r.Some? ==> |s| >= LineLength(r.value, true)
  {
    if ReadRecord(s).Some? {
      hide ReadMember, ReadSource, Escape, SourceLength;
      var ts := ReadMember(s, TS).value;
      var level := ReadMember(ts.rest, LEVEL).value;
      var thread := ReadMember(level.rest, THREAD).value;
      var source := ReadSource(thread.rest).value;
      MemberLength(s, TS);
      MemberLength(ts.rest, LEVEL);
      MemberLength(level.rest, THREAD);
      SourceIsShortest(thread.rest);
      MemberLength(source.rest, MSG);
    }
  }

  lemma FormattedLength(r: Record)
    ensures |FormatMessage(r)| == LineLength(r, false)
  {
  }

  /**
   A log line read as JSON gives back what was logged exactly if no field has a control
   character and no field but the message, which alone is escaped, has a quote or backslash.
   */
  lemma LineReadsBackIff(r: Record)
    ensures ReadRecord(FormatMessage(r)) == Some(r) <==> FieldsNoSpecial(r) && FieldsNoControl(r)
  {
    if FieldsNoSpecial(r) {
      UnescapedReadsBackIff(r);
    } else {
      FormattedLength(r);
      RecordIsShortest(FormatMessage(r));
      EscapeLength(r.ts);
      EscapeLength(r.level);
      EscapeLength(r.thread);
      if r.source.Some? {
        EscapeLength(r.source.value.file);
      }
    }
  }
}
