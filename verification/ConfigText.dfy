/**
 The line scanners behind the three configuration formats and the list values inside them.
 What a key and value do to the configuration is a parameter.
 */
module ConfigText {
  import opened Wrappers

  // ---------------------------------------------------------------- trimming

  predicate Blank(c: char) { c == ' ' || c == '\t' || c == '\r' || c == '\n' }

  predicate AllBlank(s: string) { forall c :: c in s ==> Blank(c) }

  /** Position of the first character that is not blank; the length if there is none. */
  function FirstNotBlank(s: string): (i: nat)
    ensures i <= |s| && AllBlank(s[..i]) && (i < |s| ==> !Blank(s[i]))
  {
    if s == "" || !Blank(s[0]) then 0
    else
      var i := FirstNotBlank(s[1..]);
      assert s[..1 + i] == [s[0]] + s[1..][..i];
      1 + i
  }

  /** Position after the last character that is not blank; 0 if there is none. */
  function AfterLastNotBlank(s: string): (i: nat)
    ensures i <= |s| && AllBlank(s[i..]) && (i > 0 ==> !Blank(s[i - 1]))
  {
    if s == "" || !Blank(s[|s| - 1]) then |s|
    else
      var i := AfterLastNotBlank(s[..|s| - 1]);
      assert s[i..] == s[..|s| - 1][i..] + [s[|s| - 1]];
      i
  }

  function Trim(s: string): (t: string)
    ensures t == "" || (!Blank(t[0]) && !Blank(t[|t| - 1]))
    ensures forall c :: c in t ==> c in s
  {
    var first := FirstNotBlank(s);
    if first == |s| then ""
    else
      assert s[first] in s[first..];
      s[first..AfterLastNotBlank(s)]
  }

  predicate Trimmed(s: string) { s == "" || (!Blank(s[0]) && !Blank(s[|s| - 1])) }

  lemma {:induction false} FirstIs(a: string, t: string)
    requires AllBlank(a) && t != "" && !Blank(t[0])
    ensures FirstNotBlank(a + t) == |a|
  {
    if a == "" {
      assert a + t == t;
    } else {
      assert (a + t)[1..] == a[1..] + t;
      FirstIs(a[1..], t);
    }
  }

  lemma {:induction false} LastIs(t: string, b: string)
    requires AllBlank(b) && t != "" && !Blank(t[|t| - 1])
    ensures AfterLastNotBlank(t + b) == |t|
  {
    if b == "" {
      assert t + b == t;
    } else {
      assert (t + b)[..|t + b| - 1] == t + b[..|b| - 1];
      LastIs(t, b[..|b| - 1]);
    }
  }

  lemma {:induction false} FirstOfBlank(s: string)
    requires AllBlank(s)
    ensures FirstNotBlank(s) == |s|
  {
    if s != "" {
      FirstOfBlank(s[1..]);
    }
  }

  /** A trimmed text with blanks around it trims to itself; any other text does not. */
  lemma TrimPadded(a: string, t: string, b: string)
    requires AllBlank(a) && AllBlank(b)
    ensures Trim(a + t + b) == t <==> Trimmed(t)
  {
    if t == "" {
      FirstOfBlank(a + t + b);
    } else if Trimmed(t) {
      assert a + t + b == a + (t + b);
      FirstIs(a, t + b);
      LastIs(a + t, b);
      assert (a + t + b)[|a|..|a + t|] == t;
    }
  }

  // ---------------------------------------------------------------- lines and lists

  /** Position of the first occurrence; the length if there is none. */
  function Find(s: string, c: char): (i: nat)
    ensures i <= |s| && c !in s[..i] && (i < |s| ==> s[i] == c)
  {
    if s == "" || s[0] == c then 0
    else
      var i := Find(s[1..], c);
      assert s[..1 + i] == [s[0]] + s[1..][..i];
      1 + i
  }

  function AfterDelimiter(s: string, c: char): string {
    if Find(s, c) == |s| then "" else s[Find(s, c) + 1..]
  }

  /** The pieces that repeated reads up to a delimiter deliver; nothing follows a final delimiter. */
  function Split(s: string, delimiter: char): (pieces: seq<string>)
    decreases |s|
  {
    if s == "" then [] else [s[..Find(s, delimiter)]] + Split(AfterDelimiter(s, delimiter), delimiter)
  }

  predicate Without(s: string, c: char) { c !in s }

  predicate AllWithout(pieces: seq<string>, c: char) {
    forall i :: 0 <= i < |pieces| ==> Without(pieces[i], c)
  }

  lemma {:induction false} NoDelimiterInside(s: string, delimiter: char)
    ensures AllWithout(Split(s, delimiter), delimiter)
    decreases |s|
  {
    hide Find;
    if s != "" {
      NoDelimiterInside(AfterDelimiter(s, delimiter), delimiter);
    }
  }

  /** One read up to the delimiter. */
  method GetLine(stream: string, delimiter: char) returns (piece: string, rest: string)
    requires stream != ""
    ensures Split(stream, delimiter) == [piece] + Split(rest, delimiter)
    ensures |rest| < |stream|
  {
    hide Find;
    var at := Find(stream, delimiter);
    piece := stream[..at];
    rest := if at == |stream| then "" else stream[at + 1..];
  }

  function ListItem(piece: string): seq<string> { if Trim(piece) == "" then [] else [Trim(piece)] }

  lemma ListItemIs(piece: string)
    ensures ListItem(piece) == if Trim(piece) == "" then [] else [Trim(piece)]
  {
  }

  function ListItems(pieces: seq<string>): seq<string> {
    if pieces == [] then [] else ListItems(pieces[..|pieces| - 1]) + ListItem(pieces[|pieces| - 1])
  }

  lemma OneMorePiece(done: seq<string>, piece: string)
    ensures ListItems(done + [piece]) == ListItems(done) + ListItem(piece)
  {
    hide ListItem;
    assert (done + [piece])[..|done|] == done;
  }

  method ParseList(value: string) returns (result: seq<string>)
    ensures result == ListItems(Split(value, ','))
  {
    hide Trim, Find, Split, ListItem;
    NothingToRead(',');
    result := [];
    var stream := value;
    ghost var done: seq<string> := [];
    while stream != ""
      invariant Split(value, ',') == done + Split(stream, ',')
      invariant result == ListItems(done)
      decreases |stream|
    {
      var piece;
      piece, stream := GetLine(stream, ',');
      OneMorePiece(done, piece);
      done := done + [piece];
      ListItemIs(piece);
      var item := Trim(piece);
      if item != "" {
        result := result + [item];
      }
    }
    assert done + [] == done;
  }

  function Join(items: seq<string>): string {
    if items == [] then "" else if |items| == 1 then items[0] else items[0] + "," + Join(items[1..])
  }

  predicate Listable(item: string) { item != "" && Trimmed(item) && Without(item, ',') }

  predicate AllListable(items: seq<string>) { forall i :: 0 <= i < |items| ==> Listable(items[i]) }

  lemma NothingToRead(delimiter: char)
    ensures Split("", delimiter) == []
  {
  }

  lemma SplitOne(piece: string, delimiter: char, rest: string)
    requires Without(piece, delimiter)
    ensures Split(piece + [delimiter] + rest, delimiter) == [piece] + Split(rest, delimiter)
  {
    var s := piece + [delimiter] + rest;
    FindIs(piece, delimiter, rest);
    assert s[..|piece|] == piece && s[|piece| + 1..] == rest;
  }

  lemma {:induction false} FindIs(piece: string, c: char, rest: string)
    requires Without(piece, c)
    ensures Find(piece + [c] + rest, c) == |piece|
  {
    if piece != "" {
      assert (piece + [c] + rest)[1..] == piece[1..] + [c] + rest;
      FindIs(piece[1..], c, rest);
    }
  }

  lemma {:induction false} FindNone(s: string, c: char)
    requires Without(s, c)
    ensures Find(s, c) == |s|
  {
    if s != "" {
      FindNone(s[1..], c);
    }
  }

  lemma {:induction false} SplitJoin(items: seq<string>)
    requires AllListable(items)
    ensures Split(Join(items), ',') == items
  {
    if |items| == 1 {
      FindNone(items[0], ',');
      assert items[0][..|items[0]|] == items[0];
    } else if items != [] {
      SplitJoin(items[1..]);
      SplitOne(items[0], ',', Join(items[1..]));
    }
  }

  lemma {:induction false} ItemsOfTrimmed(pieces: seq<string>)
    requires AllListable(pieces)
    ensures ListItems(pieces) == pieces
  {
    hide Trim;
    if pieces != [] {
      var last := |pieces| - 1;
      ItemsOfTrimmed(pieces[..last]);
      TrimPadded("", pieces[last], "");
      assert "" + pieces[last] + "" == pieces[last];
    }
  }

  lemma TrimmedIsListable(piece: string)
    requires Without(piece, ',')
    ensures Trim(piece) == "" || Listable(Trim(piece))
  {
    hide Trim;
  }

  lemma {:induction false} ItemsAreListable(pieces: seq<string>)
    requires AllWithout(pieces, ',')
    ensures AllListable(ListItems(pieces))
  {
    if pieces != [] {
      var last := |pieces| - 1;
      ItemsAreListable(pieces[..last]);
      TrimmedIsListable(pieces[last]);
    }
  }

  /** Parsing inverts joining with commas exactly on lists of trimmed, nonempty items without commas. */
  lemma ParseJoinIff(items: seq<string>)
    ensures ListItems(Split(Join(items), ',')) == items <==> AllListable(items)
  {
    NoDelimiterInside(Join(items), ',');
    ItemsAreListable(Split(Join(items), ','));
    if AllListable(items) {
      SplitJoin(items);
      ItemsOfTrimmed(items);
    }
  }

  // ---------------------------------------------------------------- one line of a format

  datatype Format = Ini | Json | Yaml

  datatype Setting = Setting(key: string, value: string)

  function Separator(f: Format): char { if f.Ini? then '=' else ':' }

  predicate Comment(f: Format, c: char) {
    match f
    case Ini => c == '#' || c == ';'
    case Json => c == '/' || c == '*'
    case Yaml => c == '#'
  }

  predicate Quoted(s: string) { |s| >= 2 && s[0] == '"' && s[|s| - 1] == '"' }

  function StripQuotes(s: string): string { if Quoted(s) then s[1..|s| - 1] else s }

  predicate EndsWithComma(s: string) { s != "" && s[|s| - 1] == ',' }

  function DropComma(s: string): string { if EndsWithComma(s) then s[..|s| - 1] else s }

  function CleanKey(f: Format, key: string): string { if f.Json? then StripQuotes(key) else key }

  function CleanValue(f: Format, value: string): string {
    if f.Json? then StripQuotes(DropComma(StripQuotes(value))) else value
  }

  /** The setting a line makes, if any. */
  function LineUpdate(f: Format, text: string): Option<Setting> {
    var line := Trim(text);
    if line == "" || Comment(f, line[0]) then None
    else
      var at := Find(line, Separator(f));
      if at == |line| then None
      else Some(Setting(CleanKey(f, Trim(line[..at])), CleanValue(f, Trim(line[at + 1..]))))
  }

  function Updates(f: Format, lines: seq<string>): seq<Setting> {
    if lines == [] then []
    else
      var update := LineUpdate(f, lines[|lines| - 1]);
      Updates(f, lines[..|lines| - 1]) + (if update.Some? then [update.value] else [])
  }

  function Applied<C>(update: (string, string, C) -> C, settings: seq<Setting>, config: C): C {
    if settings == [] then config
    else
      var last := settings[|settings| - 1];
      update(last.key, last.value, Applied(update, settings[..|settings| - 1], config))
  }

  lemma OneMoreApplied<C>(update: (string, string, C) -> C, settings: seq<Setting>, s: Setting, config: C)
    ensures Applied(update, settings + [s], config) == update(s.key, s.value, Applied(update, settings, config))
  {
    assert (settings + [s])[..|settings|] == settings;
  }

  function AppliedLine<C>(f: Format, line: string, update: (string, string, C) -> C, config: C): C {
    var s := LineUpdate(f, line);
    if s.None? then config else update(s.value.key, s.value.value, config)
  }

  lemma OneMoreLine<C>(f: Format, lines: seq<string>, line: string, update: (string, string, C) -> C, config: C)
    ensures Applied(update, Updates(f, lines + [line]), config) ==
            AppliedLine(f, line, update, Applied(update, Updates(f, lines), config))
  {
    hide LineUpdate;
    assert (lines + [line])[..|lines|] == lines;
    if LineUpdate(f, line).Some? {
      OneMoreApplied(update, Updates(f, lines), LineUpdate(f, line).value, config);
    } else {
      assert Updates(f, lines + [line]) == Updates(f, lines);
    }
  }

  method ApplyLine<C>(f: Format, text: string, update: (string, string, C) -> C, config: C) returns (after: C)
    ensures after == AppliedLine(f, text, update, config)
  {
    hide Trim, Find;
    var line := Trim(text);
    if line == "" || Comment(f, line[0]) {
      return config;
    }
    var at := Find(line, Separator(f));
    if at == |line| {
      return config;
    }
    var key := Trim(line[..at]);
    var value := Trim(line[at + 1..]);
    if f.Json? {
      key := StripQuotes(key);
      value := StripQuotes(value);
      value := DropComma(value);
      value := StripQuotes(value);
    }
    return update(key, value, config);
  }

  /** The scanning loop: reads line by line and applies each setting as it finds it. */
  method ParseString<C>(f: Format, content: string, update: (string, string, C) -> C, config: C) returns (after: C)
    ensures after == Applied(update, Updates(f, Split(content, '\n')), config)
  {
    hide AppliedLine, Find, LineUpdate, Split;
    NothingToRead('\n');
    after := config;
    var stream := content;
    ghost var done: seq<string> := [];
    while stream != ""
      invariant Split(content, '\n') == done + Split(stream, '\n')
      invariant after == Applied(update, Updates(f, done), config)
      decreases |stream|
    {
      var line;
      line, stream := GetLine(stream, '\n');
      OneMoreLine(f, done, line, update, config);
      done := done + [line];
      after := ApplyLine(f, line, update, after);
    }
    assert done + [] == done;
  }

  // ---------------------------------------------------------------- writing a setting in a format

  /**
   How a setting is written on a line. JSON puts a comma after all but the last, and writes a
   value bare, as a number or a switch, or between quotes.
   */
  function RenderLine(f: Format, s: Setting, bare: bool, last: bool): string {
    match f
    case Ini => s.key + " " + "=" + " " + s.value
    case Yaml => s.key + "" + ":" + " " + s.value
    case Json => "  " + ("\"" + s.key + "\"" + ":" + (" " + JsonText(s.value, bare, last)))
  }

  function JsonText(value: string, bare: bool, last: bool): string {
    (if bare then value else "\"" + value + "\"") + (if last then "" else ",")
  }

  /** Settings a format can carry: a condition on the texts alone. */
  predicate Readable(f: Format, s: Setting, bare: bool, last: bool) {
    match f
    case Ini =>
      Without(s.key, '=') && Trimmed(s.key) && Trimmed(s.value) && (s.key != "" ==> s.key[0] != '#' && s.key[0] != ';')
    case Yaml =>
      Without(s.key, ':') && Trimmed(s.key) && Trimmed(s.value) && (s.key != "" ==> s.key[0] != '#')
    case Json =>
      Without(s.key, ':') && JsonReadable(s.value, bare, last)
  }

  /** A quoted value loses a comma or quotes of its own only at the end; a bare one must not look quoted or begin with a blank. */
  predicate JsonReadable(value: string, bare: bool, last: bool) {
    && (last || bare ==> !Quoted(value))
    && (last ==> !EndsWithComma(value))
    && (bare ==> if last then Trimmed(value) else value == "" || !Blank(value[0]))
  }

  lemma TrimStart(s: string)
    requires s != "" && !Blank(s[0])
    ensures Trim(s) != "" && Trim(s)[0] == s[0]
  {
    hide AfterLastNotBlank;
    assert FirstNotBlank(s) == 0;
  }

  /** What the parts of an accepted line look like. */
  lemma UpdateShape(f: Format, text: string)
    ensures var u := LineUpdate(f, text);
            u.Some? ==> && Without(u.value.key, Separator(f))
                        && (!f.Json? ==> Trimmed(u.value.key) && Trimmed(u.value.value))
  {
    hide Find, Trim;
  }

  /** A trimmed line with its first separator after k2. */
  lemma UpdateOfParts(f: Format, a: string, k: string, w: string, b: string)
    requires AllBlank(a) && AllBlank(b) && Without(k, Separator(f))
    requires var t := k + [Separator(f)] + w; Trimmed(t) && !Comment(f, t[0])
    ensures LineUpdate(f, a + (k + [Separator(f)] + w) + b) == Some(Setting(CleanKey(f, Trim(k)), CleanValue(f, Trim(w))))
  {
    hide Find, Trim, CleanKey, CleanValue;
    var t := k + [Separator(f)] + w;
    TrimPadded(a, t, b);
    FindIs(k, Separator(f), w);
    assert t[..|k|] == k && t[|k| + 1..] == w;
  }

  /** The key with the blanks after it, and the value with the one before it, unless they are empty. */
  function Left(key: string, pad: string): string { if key == "" then "" else key + pad }

  function Right(value: string): string { if value == "" then "" else " " + value }

  lemma TrimSides(key: string, pad: string, value: string)
    requires Trimmed(key) && Trimmed(value) && AllBlank(pad)
    ensures Trim(Left(key, pad)) == key && Trim(Right(value)) == value
  {
    hide Trim;
    TrimPadded("", key, if key == "" then "" else pad);
    TrimPadded(if value == "" then "" else " ", value, "");
    assert "" + key + (if key == "" then "" else pad) == Left(key, pad);
    assert (if value == "" then "" else " ") + value + "" == Right(value);
  }

  lemma SidesTrimmed(key: string, pad: string, c: char, value: string)
    requires Trimmed(key) && Trimmed(value) && !Blank(c)
    ensures var t := Left(key, pad) + [c] + Right(value); Trimmed(t) && t[0] == if key == "" then c else key[0]
  {
  }

  lemma SidesJoin(key: string, pad: string, c: char, value: string)
    ensures key + pad + [c] + " " + value ==
            (if key == "" then pad else "") + (Left(key, pad) + [c] + Right(value)) + (if value == "" then " " else "")
  {
  }

  lemma PlainLineReads(f: Format, pad: string, s: Setting)
    requires !f.Json? && Readable(f, s, false, false) && AllBlank(pad)
    ensures LineUpdate(f, s.key + pad + [Separator(f)] + " " + s.value) == Some(s)
  {
    assert Without(Left(s.key, pad), Separator(f));
    hide Find, Trim, LineUpdate, Left, Right;
    SidesTrimmed(s.key, pad, Separator(f), s.value);
    SidesJoin(s.key, pad, Separator(f), s.value);
    UpdateOfParts(f, if s.key == "" then pad else "", Left(s.key, pad), Right(s.value), if s.value == "" then " " else "");
    TrimSides(s.key, pad, s.value);
  }

  lemma PlainLineReadsOnly(f: Format, pad: string, s: Setting)
    requires !f.Json?
    requires LineUpdate(f, s.key + pad + [Separator(f)] + " " + s.value) == Some(s)
    ensures Readable(f, s, false, false)
  {
    hide Find, Trim;
    var text := s.key + pad + [Separator(f)] + " " + s.value;
    UpdateShape(f, text);
    if s.key != "" {
      assert text[0] == s.key[0];
      TrimStart(text);
    }
  }

  /** A text is its trimmed self between blanks. */
  lemma TrimInside(s: string) returns (a: string, b: string)
    ensures AllBlank(a) && AllBlank(b) && s == a + Trim(s) + b
  {
    var first, after := FirstNotBlank(s), AfterLastNotBlank(s);
    if first == |s| {
      a, b := s, "";
    } else {
      assert s[first] in s[first..];
      a, b := s[..first], s[after..];
    }
  }

  lemma BlanksJoin(a: string, b: string)
    requires AllBlank(a) && AllBlank(b)
    ensures AllBlank(a + b)
  {
  }

  lemma TrimPadding(a: string, s: string, b: string)
    requires AllBlank(a) && AllBlank(b)
    ensures Trim(a + s + b) == Trim(s)
  {
    hide Trim;
    var c, d := TrimInside(s);
    BlanksJoin(a, c);
    BlanksJoin(d, b);
    TrimPadded(a + c, Trim(s), d + b);
    assert a + (c + Trim(s) + d) + b == (a + c) + Trim(s) + (d + b);
  }

  /** Blanks around a line change nothing, in particular the carriage return before a line break. */
  lemma PaddingIgnored(f: Format, a: string, text: string, b: string)
    requires forall i :: 0 <= i < |a| ==> a[i] == ' ' || a[i] == '\t' || a[i] == '\r'
    requires forall i :: 0 <= i < |b| ==> b[i] == ' ' || b[i] == '\t' || b[i] == '\r'
    ensures LineUpdate(f, a + text + b) == LineUpdate(f, text)
  {
    hide Trim, Find;
    TrimPadding(a, text, b);
  }

  /** Comment lines of each format. */
  lemma CommentsSkipped(rest: string)
    ensures LineUpdate(Ini, "#" + rest) == None && LineUpdate(Ini, ";" + rest) == None
    ensures LineUpdate(Json, "/" + rest) == None && LineUpdate(Json, "*" + rest) == None
    ensures LineUpdate(Yaml, "#" + rest) == None
  {
    hide Trim, Find;
    TrimStart("#" + rest);
    TrimStart(";" + rest);
    TrimStart("/" + rest);
    TrimStart("*" + rest);
  }

  /** A text without the blanks at its end. */
  lemma TrimEnd(s: string) returns (w: string, b: string)
    ensures s == w + b && AllBlank(b) && (w == "" || !Blank(w[|w| - 1])) && Trim(w) == Trim(s)
  {
    hide Trim;
    var after := AfterLastNotBlank(s);
    w, b := s[..after], s[after..];
    TrimPadding("", w, b);
    assert "" + w + b == s;
  }

  lemma QuotedKey(key: string)
    requires Without(key, ':')
    ensures var k := "\"" + key + "\""; Without(k, ':') && CleanKey(Json, Trim(k)) == key
  {
    hide Trim;
    var k := "\"" + key + "\"";
    TrimPadded("", k, "");
    assert "" + k + "" == k && k[1..|k| - 1] == key;
  }

  /** Any line with a quoted key without a colon: whatever follows the colon is trimmed and cleaned. */
  lemma JsonKeyReads(key: string, rest: string)
    requires Without(key, ':')
    ensures LineUpdate(Json, "  " + ("\"" + key + "\"" + ":" + rest)) == Some(Setting(key, CleanValue(Json, Trim(rest))))
  {
    hide Find, Trim, LineUpdate, CleanValue, CleanKey, Without, Trimmed;
    var k := "\"" + key + "\"";
    var w, b := TrimEnd(rest);
    assert "  " + (k + ":" + rest) == "  " + (k + ":" + w) + b;
    QuotedKey(key);
    QuotedKeyTrimmed(key, w);
    UpdateOfParts(Json, "  ", k, w, b);
  }

  lemma QuotedKeyTrimmed(key: string, w: string)
    requires w == "" || !Blank(w[|w| - 1])
    ensures var t := "\"" + key + "\"" + ":" + w; Trimmed(t) && t[0] == '"'
  {
  }

  /** In quotes or bare, the key comes back unless it has a colon; cleaning can take from the value. */
  lemma JsonLineReads(s: Setting, bare: bool, last: bool)
    ensures LineUpdate(Json, RenderLine(Json, s, bare, last)) == Some(s) <==> Readable(Json, s, bare, last)
  {
    hide Find, Trim, LineUpdate, CleanValue, JsonText, JsonReadable;
    UpdateShape(Json, RenderLine(Json, s, bare, last));
    if Without(s.key, ':') {
      JsonKeyReads(s.key, " " + JsonText(s.value, bare, last));
      if bare {
        BareValue(s.value, last);
      } else {
        QuotedValue(s.value, last);
      }
    }
  }

  lemma QuotedValue(value: string, last: bool)
    ensures CleanValue(Json, Trim(" " + JsonText(value, false, last))) == value <==> JsonReadable(value, false, last)
  {
    hide Trim;
    var q := "\"" + value + "\"";
    var text := JsonText(value, false, last);
    TrimPadded(" ", text, "");
    assert " " + text + "" == " " + text;
    assert q[1..|q| - 1] == value;
    if last {
      assert q + "" == q;
    } else {
      assert (q + ",")[..|q|] == q;
    }
  }

  lemma BareValue(value: string, last: bool)
    ensures CleanValue(Json, Trim(" " + JsonText(value, true, last))) == value <==> JsonReadable(value, true, last)
  {
    if last {
      BareLast(value);
    } else {
      BareWithComma(value);
    }
  }

  lemma BareLast(value: string)
    ensures CleanValue(Json, Trim(" " + JsonText(value, true, true))) == value <==> JsonReadable(value, true, true)
  {
    hide Trim;
    assert " " + JsonText(value, true, true) == " " + value + "";
    TrimPadding(" ", value, "");
    var t := Trim(value);
    TrimPadded("", value, "");
    assert "" + value + "" == value;
    var a, b := TrimInside(value);
    assert |CleanValue(Json, t)| <= |t| <= |value|;
    if t != value {
      assert |t| < |value|;
    }
  }

  lemma BareWithComma(value: string)
    ensures CleanValue(Json, Trim(" " + JsonText(value, true, false))) == value <==> JsonReadable(value, true, false)
  {
    hide Trim;
    var first := FirstNotBlank(value);
    var v := value[first..];
    var text := v + ",";
    assert " " + JsonText(value, true, false) == " " + value[..first] + text + "";
    BlanksJoin(" ", value[..first]);
    TrimPadded(" " + value[..first], text, "");
    assert text[..|v|] == v;
    assert !Quoted(text) && DropComma(text) == v;
    assert first == 0 ==> v == value;
    assert first > 0 ==> |v| < |value| && Blank(value[..first][0]);
  }

  /** Exactly the readable settings come back from their line, in each format. */
  lemma LineReadsBackIff(f: Format, s: Setting, bare: bool, last: bool)
    ensures LineUpdate(f, RenderLine(f, s, bare, last)) == Some(s) <==> Readable(f, s, bare, last)
  {
    hide LineUpdate;
    if f.Json? {
      JsonLineReads(s, bare, last);
    } else {
      var pad := if f.Ini? then " " else "";
      if Readable(f, s, bare, last) {
        PlainLineReads(f, pad, s);
      }
      if LineUpdate(f, RenderLine(f, s, bare, last)) == Some(s) {
        PlainLineReadsOnly(f, pad, s);
      }
    }
  }

  // ---------------------------------------------------------------- whole documents

  function Lines(f: Format, settings: seq<Setting>, bare: nat -> bool): (lines: seq<string>)
    ensures |lines| == |settings|
    ensures forall i :: 0 <= i < |lines| ==> lines[i] == RenderLine(f, settings[i], bare(i), i == |settings| - 1)
  {
    seq(|settings|, i requires 0 <= i < |settings| => RenderLine(f, settings[i], bare(i), i == |settings| - 1))
  }

  /** JSON puts braces on lines of their own around the settings. */
  function DocumentLines(f: Format, settings: seq<Setting>, bare: nat -> bool): seq<string> {
    if f.Json? then ["{"] + Lines(f, settings, bare) + ["}"] else Lines(f, settings, bare)
  }

  function Text(lines: seq<string>): string {
    if lines == [] then "" else lines[0] + ['\n'] + Text(lines[1..])
  }

  function Render(f: Format, settings: seq<Setting>, bare: nat -> bool): string { Text(DocumentLines(f, settings, bare)) }

  lemma {:induction false} SplitText(lines: seq<string>)
    requires AllWithout(lines, '\n')
    ensures Split(Text(lines), '\n') == lines
  {
    hide Find;
    if lines != [] {
      SplitText(lines[1..]);
      SplitOne(lines[0], '\n', Text(lines[1..]));
    }
  }

  predicate OneLine(s: Setting) { Without(s.key, '\n') && Without(s.value, '\n') }

  predicate AllOneLine(settings: seq<Setting>) { forall i :: 0 <= i < |settings| ==> OneLine(settings[i]) }

  lemma RenderedInOneLine(f: Format, s: Setting, bare: bool, last: bool)
    requires OneLine(s)
    ensures Without(RenderLine(f, s, bare, last), '\n')
  {
  }

  lemma DocumentSplits(f: Format, settings: seq<Setting>, bare: nat -> bool)
    requires AllOneLine(settings)
    ensures Split(Render(f, settings, bare), '\n') == DocumentLines(f, settings, bare)
  {
    hide Split, RenderLine;
    forall i | 0 <= i < |settings| ensures Without(Lines(f, settings, bare)[i], '\n') {
      RenderedInOneLine(f, settings[i], bare(i), i == |settings| - 1);
    }
    SplitText(DocumentLines(f, settings, bare));
  }

  lemma {:induction false} UpdatesFewer(f: Format, lines: seq<string>)
    ensures |Updates(f, lines)| <= |lines|
  {
    hide LineUpdate;
    if lines != [] {
      UpdatesFewer(f, lines[..|lines| - 1]);
    }
  }

  /** As many settings as lines come out only if every line gives its own. */
  lemma {:induction false} UpdatesExact(f: Format, lines: seq<string>, settings: seq<Setting>)
    requires |lines| == |settings|
    ensures Updates(f, lines) == settings <==>
            forall i :: 0 <= i < |lines| ==> LineUpdate(f, lines[i]) == Some(settings[i])
  {
    hide LineUpdate;
    if lines != [] {
      var n := |lines| - 1;
      UpdatesExact(f, lines[..n], settings[..n]);
      UpdatesFewer(f, lines[..n]);
      assert settings == settings[..n] + [settings[n]];
    }
  }

  lemma {:induction false} UpdatesAppend(f: Format, a: seq<string>, b: seq<string>)
    ensures Updates(f, a + b) == Updates(f, a) + Updates(f, b)
  {
    hide LineUpdate;
    if b == [] {
      assert a + b == a;
    } else {
      var n := |b| - 1;
      UpdatesAppend(f, a, b[..n]);
      assert (a + b)[..|a + b| - 1] == a + b[..n];
    }
  }

  lemma BraceSetsNothing(brace: char)
    requires brace == '{' || brace == '}'
    ensures Updates(Json, [[brace]]) == []
  {
    hide Trim, Find;
    TrimPadded("", [brace], "");
    assert "" + [brace] + "" == [brace];
    FindNone([brace], ':');
  }

  lemma DocumentUpdates(f: Format, settings: seq<Setting>, bare: nat -> bool)
    ensures Updates(f, DocumentLines(f, settings, bare)) == Updates(f, Lines(f, settings, bare))
  {
    hide LineUpdate, RenderLine;
    if f.Json? {
      BraceSetsNothing('{');
      BraceSetsNothing('}');
      UpdatesAppend(f, ["{"], Lines(f, settings, bare));
      UpdatesAppend(f, ["{"] + Lines(f, settings, bare), ["}"]);
    }
  }

  lemma UpdateInOneLine(f: Format, line: string)
    requires Without(line, '\n')
    ensures LineUpdate(f, line).Some? ==> OneLine(LineUpdate(f, line).value)
  {
    hide Find, Trim, CleanKey, CleanValue;
    var text := Trim(line);
    var at := Find(text, Separator(f));
    if LineUpdate(f, line).Some? {
      CleanInOneLine(f, Trim(text[..at]));
      CleanInOneLine(f, Trim(text[at + 1..]));
    }
  }

  lemma CleanInOneLine(f: Format, text: string)
    requires Without(text, '\n')
    ensures Without(CleanKey(f, text), '\n') && Without(CleanValue(f, text), '\n')
  {
    hide StripQuotes, DropComma, Without;
    StripKeepsOut(text, '\n');
    DropKeepsOut(StripQuotes(text), '\n');
    StripKeepsOut(DropComma(StripQuotes(text)), '\n');
  }

  lemma StripKeepsOut(s: string, c: char)
    requires Without(s, c)
    ensures Without(StripQuotes(s), c)
  {
  }

  lemma DropKeepsOut(s: string, c: char)
    requires Without(s, c)
    ensures Without(DropComma(s), c)
  {
  }

  lemma {:induction false} UpdatesInOneLine(f: Format, lines: seq<string>)
    requires AllWithout(lines, '\n')
    ensures AllOneLine(Updates(f, lines))
  {
    hide LineUpdate;
    if lines != [] {
      UpdatesInOneLine(f, lines[..|lines| - 1]);
      UpdateInOneLine(f, lines[|lines| - 1]);
    }
  }

  /** What a scanner of this format finds in a document. */
  function Parsed(f: Format, content: string): seq<Setting> { Updates(f, Split(content, '\n')) }

  /** The texts a format carries through writing and reading. */
  predicate Carried(f: Format, settings: seq<Setting>, bare: nat -> bool) {
    AllOneLine(settings) && forall i :: 0 <= i < |settings| ==> Readable(f, settings[i], bare(i), i == |settings| - 1)
  }

  /** A written document is read back as the same settings exactly if each of them is one the format carries. */
  lemma DocumentReadsBackIff(f: Format, settings: seq<Setting>, bare: nat -> bool)
    ensures Parsed(f, Render(f, settings, bare)) == settings <==> Carried(f, settings, bare)
  {
    hide Split, Render, DocumentLines, Updates, LineUpdate, RenderLine, Readable, OneLine;
    NoDelimiterInside(Render(f, settings, bare), '\n');
    UpdatesInOneLine(f, Split(Render(f, settings, bare), '\n'));
    if AllOneLine(settings) {
      DocumentSplits(f, settings, bare);
      DocumentUpdates(f, settings, bare);
      UpdatesExact(f, Lines(f, settings, bare), settings);
      forall i | 0 <= i < |settings|
        ensures LineUpdate(f, Lines(f, settings, bare)[i]) == Some(settings[i])
                <==> Readable(f, settings[i], bare(i), i == |settings| - 1)
      {
        LineReadsBackIff(f, settings[i], bare(i), i == |settings| - 1);
      }
    }
  }

  /** A text every format carries, wherever it stands in a document. */
  predicate Portable(s: Setting) {
    && Trimmed(s.key) && Trimmed(s.value) && OneLine(s)
    && Without(s.key, '=') && Without(s.key, ':')
    && (s.key != "" ==> s.key[0] != '#' && s.key[0] != ';')
    && !EndsWithComma(s.value) && !Quoted(s.value)
  }

  /** Three formats, one meaning: portable settings make the same configuration from any of them. */
  lemma FormatsAgree<C>(settings: seq<Setting>, bare: nat -> bool, update: (string, string, C) -> C, config: C)
    requires forall i :: 0 <= i < |settings| ==> Portable(settings[i])
    ensures forall f: Format :: Applied(update, Parsed(f, Render(f, settings, bare)), config) == Applied(update, settings, config)
  {
    forall f: Format ensures Applied(update, Parsed(f, Render(f, settings, bare)), config) == Applied(update, settings, config) {
      DocumentReadsBackIff(f, settings, bare);
      forall i | 0 <= i < |settings| ensures OneLine(settings[i]) && Readable(f, settings[i], bare(i), i == |settings| - 1) {
        assert Portable(settings[i]);
      }
    }
  }
}
