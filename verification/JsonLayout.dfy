/** How ffprobe lays out its JSON output: a reader of the text alone checks, outside strings, that every
    line is indented by four spaces for each bracket that is open, and where lines begin and end. */
module JsonLayout {
  import opened Text
  import opened Decimal
  import opened Sections
  import opened Wrappers
  import W = Writer
  import J = Json
  import JW = JsonWriter

  // ---------------------------------------------------------------- the layout of a text

  predicate IsOpen(c: char) {
    c == '{' || c == '['
  }

  predicate IsClose(c: char) {
    c == '}' || c == ']'
  }

  function LeadingSpaces(s: string): (n: nat)
    ensures n <= |s| && (n < |s| ==> s[n] != ' ')
  {
    if s == [] || s[0] != ' ' then 0 else 1 + LeadingSpaces(s[1..])
  }

  /** The line that begins with `s` is empty, or indented by four spaces for each of the `d` open
      brackets; one that begins with a closing bracket by four less. */
  predicate Indented(s: string, d: int) {
    var n := LeadingSpaces(s);
    if n == |s| || s[n] == '\n' then n == 0 else n == 4 * if IsClose(s[n]) then d - 1 else d
  }

  /** Where a line has to end after `c`: pretty output after every bracket that opens and every comma,
      compact output after one that opens an array; a space does there otherwise. */
  predicate Follows(pretty: bool, c: char, s: string) {
    s != [] && (s[0] == '\n' || (s[0] == ' ' && !pretty && c != '['))
  }

  /** The text outside strings, with `d` brackets open. `prev` is the character before it, `begins` tells
      that the line has had nothing but spaces so far: a closing bracket begins a line, but for the
      one of an object in compact output, which follows a space. */
  predicate Laid(pretty: bool, prev: char, begins: bool, s: string, d: int)
    decreases |s|
  {
    if s == [] then d == 0
    else if s[0] == '"' then InString(pretty, s[1..], d)
    else if IsOpen(s[0]) then Follows(pretty, s[0], s[1..]) && Laid(pretty, s[0], false, s[1..], d + 1)
    else if IsClose(s[0]) then
      && (begins || (!pretty && s[0] == '}' && prev == ' '))
      && Laid(pretty, s[0], false, s[1..], d - 1)
    else if s[0] == ',' then Follows(pretty, ',', s[1..]) && Laid(pretty, ',', false, s[1..], d)
    else if s[0] == '\n' then Indented(s[1..], d) && Laid(pretty, '\n', true, s[1..], d)
    else Laid(pretty, s[0], begins && s[0] == ' ', s[1..], d)
  }

  /** The text inside a string, up to its closing quote; no line ends in it. */
  predicate InString(pretty: bool, s: string, d: int)
    decreases |s|
  {
    if s == [] || s[0] == '\n' then false
    else if s[0] == '"' then Laid(pretty, '"', false, s[1..], d)
    else if s[0] == '\\' then |s| >= 2 && InString(pretty, s[2..], d)
    else InString(pretty, s[1..], d)
  }

  /** Laid out whatever comes before it on the line. */
  ghost predicate Any(pretty: bool, s: string, d: int) {
    forall prev, begins :: Laid(pretty, prev, begins, s, d)
  }

  // ---------------------------------------------------------------- pieces of text

  lemma {:induction false} AnySpaces(pretty: bool, n: nat, t: string, d: int)
    requires Any(pretty, t, d)
    ensures Any(pretty, W.Spaces(n) + t, d)
    decreases n
  {
    if n == 0 {
      assert W.Spaces(0) + t == t;
    } else {
      AnySpaces(pretty, n - 1, t, d);
      var s := W.Spaces(n) + t;
      assert s[1..] == W.Spaces(n - 1) + t;
    }
  }

  // A character without a meaning for the layout.
  predicate Ordinary(c: char) {
    c != '"' && !IsOpen(c) && !IsClose(c) && c != ',' && c != '\n'
  }

  lemma {:induction false} AnyOrdinary(pretty: bool, s: string, t: string, d: int)
    requires Any(pretty, t, d) && forall i :: 0 <= i < |s| ==> Ordinary(s[i])
    ensures Any(pretty, s + t, d)
    decreases |s|
  {
    if s == [] {
      assert s + t == t;
    } else {
      AnyOrdinary(pretty, s[1..], t, d);
      TailOfJoin(s, t);
    }
  }

  lemma {:induction false} EscapedStays(pretty: bool, x: string, t: string, d: int)
    requires Any(pretty, t, d)
    ensures InString(pretty, J.Escape(x) + (['"'] + t), d)
    decreases |x|
  {
    var close := ['"'] + t;
    Cut(['"'], t);
    if x == [] {
      assert J.Escape(x) + close == close;
    } else {
      EscapedStays(pretty, x[1..], t, d);
      Assoc(J.EscapeChar(x[0]), J.Escape(x[1..]), close);
      CharStays(pretty, x[0], J.Escape(x[1..]) + close, d);
    }
  }

  lemma CharStays(pretty: bool, c: char, t: string, d: int)
    requires InString(pretty, t, d)
    ensures InString(pretty, J.EscapeChar(c) + t, d)
  {
    var e := J.EscapeChar(c);
    var s := e + t;
    J.EscapeLength(c);
    if |e| == 1 {
      assert s[1..] == t;
    } else if |e| == 2 {
      assert s[2..] == t;
    } else {
      var x, y := HexChar(c as int / 16), HexChar(c as int % 16);
      PlainStays(pretty, y, t, d);
      PlainStays(pretty, x, [y] + t, d);
      PlainStays(pretty, '0', [x] + ([y] + t), d);
      PlainStays(pretty, '0', ['0'] + ([x] + ([y] + t)), d);
      assert s[2..] == ['0'] + (['0'] + ([x] + ([y] + t)));
    }
  }

  lemma PlainStays(pretty: bool, c: char, t: string, d: int)
    requires InString(pretty, t, d) && c != '"' && c != '\\' && c != '\n'
    ensures InString(pretty, [c] + t, d)
  {
    Cut([c], t);
  }

  lemma AnyQuoted(pretty: bool, x: string, t: string, d: int)
    requires Any(pretty, t, d)
    ensures Any(pretty, W.Quoted(x) + t, d)
  {
    var s := W.Quoted(x) + t;
    EscapedStays(pretty, x, t, d);
    assert s[1..] == J.Escape(x) + (['"'] + t);
  }

  lemma AnyValue(pretty: bool, v: Value, t: string, d: int)
    requires Any(pretty, t, d)
    ensures Any(pretty, W.JsonValue(v) + t, d)
  {
    match v
    case Int(n) =>
      IntOrdinary(n);
      AnyOrdinary(pretty, IntText(n), t, d);
    case Str(x) => AnyQuoted(pretty, x, t, d);
  }

  lemma IntOrdinary(n: int)
    ensures forall i :: 0 <= i < |IntText(n)| ==> Ordinary(IntText(n)[i])
  {
  }

  lemma AnyOpen(pretty: bool, c: char, t: string, d: int)
    requires IsOpen(c) && Follows(pretty, c, t) && Any(pretty, t, d + 1)
    ensures Any(pretty, [c] + t, d)
  {
    Cut([c], t);
  }

  lemma AnyComma(pretty: bool, t: string, d: int)
    requires Follows(pretty, ',', t) && Any(pretty, t, d)
    ensures Any(pretty, [','] + t, d)
  {
    Cut([','], t);
  }

  lemma AnyLine(pretty: bool, t: string, d: int)
    requires Indented(t, d) && Any(pretty, t, d)
    ensures Any(pretty, ['\n'] + t, d)
  {
    Cut(['\n'], t);
  }

  // A closing bracket on a line of its own.
  lemma {:induction false} FreshClose(pretty: bool, n: nat, prev: char, c: char, t: string, d: int)
    requires IsClose(c) && Any(pretty, t, d - 1)
    ensures Laid(pretty, prev, true, W.Spaces(n) + ([c] + t), d)
    decreases n
  {
    var s := W.Spaces(n) + ([c] + t);
    if n == 0 {
      assert s == [c] + t && s[1..] == t;
    } else {
      FreshClose(pretty, n - 1, ' ', c, t, d);
      assert s[1..] == W.Spaces(n - 1) + ([c] + t);
    }
  }

  lemma {:induction false} Leading(n: nat, s: string)
    requires s == [] || s[0] != ' '
    ensures LeadingSpaces(W.Spaces(n) + s) == n
    decreases n
  {
    if n == 0 {
      assert W.Spaces(0) + s == s;
    } else {
      Leading(n - 1, s);
      assert (W.Spaces(n) + s)[1..] == W.Spaces(n - 1) + s;
    }
  }

  lemma CloseLine(pretty: bool, c: char, t: string, d: int)
    requires IsClose(c) && Any(pretty, t, d - 1) && d >= 1
    ensures Any(pretty, ['\n'] + (W.Spaces(4 * (d - 1)) + ([c] + t)), d)
  {
    var line := W.Spaces(4 * (d - 1)) + ([c] + t);
    Leading(4 * (d - 1), [c] + t);
    assert line[4 * (d - 1)] == c;
    FreshClose(pretty, 4 * (d - 1), '\n', c, t, d);
    Cut(['\n'], line);
  }

  // The indentation of an entry.
  lemma EntryLine(indent: int, s: string)
    requires indent >= 1 && s != [] && s[0] != ' ' && s[0] != '\n' && !IsClose(s[0])
    ensures Indented(W.Indent(indent) + s, indent)
  {
    Leading(4 * indent, s);
    assert (W.Indent(indent) + s)[4 * indent] == s[0];
  }

  // ---------------------------------------------------------------- the entries of a section

  // A later entry goes on with a comma.
  lemma LaterItem(c: bool, s: string, d: int)
    requires Any(!c, s, d) && (!c ==> Indented(s, d))
    ensures Any(!c, W.ItemSep(c) + s, d)
  {
    if c {
      AnySpaces(true == !c, 1, s, d);
      assert W.Spaces(1) + s == [' '] + s;
      AnyComma(!c, [' '] + s, d);
      assert W.ItemSep(c) + s == [','] + ([' '] + s);
    } else {
      AnyLine(!c, s, d);
      AnyComma(!c, ['\n'] + s, d);
      assert W.ItemSep(c) + s == [','] + (['\n'] + s);
    }
  }

  lemma LaterSection(c: bool, s: string, d: int)
    requires Any(!c, s, d) && Indented(s, d)
    ensures Any(!c, ",\n" + s, d)
  {
    AnyLine(!c, s, d);
    AnyComma(!c, ['\n'] + s, d);
    assert ",\n" + s == [','] + (['\n'] + s);
  }

  /** The key, the colon and the value. */
  function Pair(key: string, v: Value): string {
    W.Quoted(key) + (": " + W.JsonValue(v))
  }

  lemma PairLaid(c: bool, key: string, v: Value, t: string, d: int)
    requires Any(!c, t, d)
    ensures Any(!c, Pair(key, v) + t, d)
  {
    AnyValue(!c, v, t, d);
    AnyOrdinary(!c, ": ", W.JsonValue(v) + t, d);
    AnyQuoted(!c, key, ": " + (W.JsonValue(v) + t), d);
    Assoc(W.Quoted(key), ": " + W.JsonValue(v), t);
    Assoc(": ", W.JsonValue(v), t);
  }

  // A pair on its line, and what follows.
  lemma PairLine(c: bool, indent: int, key: string, v: Value, t: string)
    requires indent >= 1 && Any(!c, t, indent)
    ensures var line := W.OptIndent(c, indent) + (Pair(key, v) + t);
            Any(!c, line, indent) && (!c ==> Indented(line, indent))
  {
    PairLaid(c, key, v, t, indent);
    if c {
      assert W.OptIndent(c, indent) + (Pair(key, v) + t) == Pair(key, v) + t;
    } else {
      EntryLine(indent, Pair(key, v) + t);
      AnySpaces(!c, 4 * indent, Pair(key, v) + t, indent);
    }
  }

  lemma ItemText(c: bool, first: bool, indent: int, key: string, v: Value, t: string)
    ensures var line := W.OptIndent(c, indent) + (Pair(key, v) + t);
            W.JsonItem(c, first, indent, key, v) + t == if first then line else W.ItemSep(c) + line
  {
    var i := W.OptIndent(c, indent);
    Assoc(i, Pair(key, v), t);
    Assoc(W.ItemSep(c), i + Pair(key, v), t);
    assert [] + (i + Pair(key, v)) == i + Pair(key, v);
  }

  /** One item, with what follows. */
  lemma ItemLaid(c: bool, first: bool, indent: int, key: string, v: Value, t: string)
    requires indent >= 1 && Any(!c, t, indent)
    ensures Any(!c, W.JsonItem(c, first, indent, key, v) + t, indent)
    ensures first && !c ==> Indented(W.JsonItem(c, first, indent, key, v) + t, indent)
  {
    PairLine(c, indent, key, v, t);
    ItemText(c, first, indent, key, v, t);
    if !first {
      LaterItem(c, W.OptIndent(c, indent) + (Pair(key, v) + t), indent);
    }
  }

  lemma CompactClose(rest: string, d: int)
    requires Any(false, rest, d - 1)
    ensures Any(false, [' '] + (['}'] + rest), d)
  {
    var s := [' '] + (['}'] + rest);
    assert s[1..] == ['}'] + rest && s[1..][1..] == rest;
    forall prev, begins ensures Laid(false, prev, begins, s, d) {
      assert Laid(false, '}', false, rest, d - 1);
      assert Laid(false, ' ', begins, s[1..], d);
    }
  }

  // The text that closes a section, with what follows.
  lemma CloseText(c: bool, kind: Flag, indent: int, rest: string)
    requires indent >= 1
    ensures W.JsonClose(c, false, kind, indent) + rest
            == if c && !kind.Array? then [' '] + (['}'] + rest)
               else ['\n'] + (W.Spaces(4 * indent) + ([if kind.Array? then ']' else '}'] + rest))
  {
    var i := W.Indent(indent);
    if kind.Array? {
      Assoc("\n", i + "]", rest);
      Assoc(i, "]", rest);
    } else {
      var o := W.OptIndent(c, indent);
      Assoc(W.StartEnd(c), o + "}", rest);
      Assoc(o, "}", rest);
    }
  }

  /** The text that closes a section is laid out. */
  lemma CloseLaid(c: bool, kind: Flag, indent: int, rest: string)
    requires indent >= 1 && Any(!c, rest, indent)
    ensures var t := W.JsonClose(c, false, kind, indent) + rest;
            Any(!c, t, indent + 1) && (!c || kind.Array? ==> Indented(t, indent + 1))
  {
    CloseText(c, kind, indent, rest);
    if kind.Array? {
      LineClose(!c, ']', rest, indent);
    } else if c {
      CompactClose(rest, indent + 1);
    } else {
      LineClose(!c, '}', rest, indent);
    }
  }

  lemma LineClose(pretty: bool, mark: char, rest: string, indent: nat)
    requires IsClose(mark) && Any(pretty, rest, indent)
    ensures var t := ['\n'] + (W.Spaces(4 * indent) + ([mark] + rest));
            Any(pretty, t, indent + 1) && Indented(t, indent + 1)
  {
    CloseLine(pretty, mark, rest, indent + 1);
  }

  // A bracket, the end of its line or a space, and what is inside.
  lemma OpenLaid(c: bool, list: bool, s: string, d: int)
    requires Any(!c, s, d + 1) && (!c || list ==> Indented(s, d + 1))
    ensures Any(!c, (if list then "[\n" else "{" + W.StartEnd(c)) + s, d)
  {
    var mark := if list then '[' else '{';
    if c && !list {
      AnySpaces(!c, 1, s, d + 1);
      assert W.Spaces(1) + s == [' '] + s;
      AnyOpen(!c, mark, [' '] + s, d);
      assert "{" + W.StartEnd(c) + s == [mark] + ([' '] + s);
    } else {
      AnyLine(!c, s, d + 1);
      AnyOpen(!c, mark, ['\n'] + s, d);
      assert (if list then "[\n" else "{" + W.StartEnd(c)) + s == [mark] + (['\n'] + s);
    }
  }

  // The type member of an element of packets_and_frames, if it is one, and what is inside.
  lemma TypeLaid(c: bool, def: SectionDef, parent: SectionDef, indent: int, s: string)
    requires indent >= 1 && Any(!c, s, indent + 1) && (!c ==> Indented(s, indent + 1))
    requires parent.id.PacketsAndFrames? ==> Plain(def.name)
    ensures var t := W.JsonType(c, def, Some(parent), indent) + s;
            Any(!c, t, indent + 1) && (!c ==> Indented(t, indent + 1))
  {
    if parent.id.PacketsAndFrames? {
      LaterItem(c, s, indent + 1);
      PairLine(c, indent + 1, "type", Str(def.name), W.ItemSep(c) + s);
      TypeIsPair(c, def, parent, indent, s);
    } else {
      assert W.JsonType(c, def, Some(parent), indent) + s == s;
    }
  }

  lemma TypeIsPair(c: bool, def: SectionDef, parent: SectionDef, indent: int, s: string)
    requires parent.id.PacketsAndFrames? && Plain(def.name)
    ensures W.JsonType(c, def, Some(parent), indent) + s
         == W.OptIndent(c, indent + 1) + (Pair("type", Str(def.name)) + (W.ItemSep(c) + s))
  {
    var v, sep := W.JsonValue(Str(def.name)), W.ItemSep(c);
    J.EscapePlain(def.name);
    JW.TypeMember(W.OptIndent(c, indent + 1), def.name, sep, s);
    KeyIsPair("type", Str(def.name), sep + s);
  }

  lemma KeyIsPair(key: string, v: Value, t: string)
    ensures JW.KeyText(key, [' '] + (W.JsonValue(v) + t)) == Pair(key, v) + t
  {
    var text := W.JsonValue(v);
    JW.QuotedKey(key, [' '] + (text + t));
    Assoc(W.Quoted(key), ": " + text, t);
    Assoc(": ", text, t);
    assert ": " + (text + t) == [':'] + ([' '] + (text + t));
  }

  /** The bracket of a section, from its name on, with what is inside. */
  lemma BracketLaid(c: bool, def: SectionDef, parent: SectionDef, indent: int, s: string)
    requires indent >= 1 && !def.kind.Wrapper? && Any(!c, s, indent + 1)
    requires !c || def.kind.Array? ==> Indented(s, indent + 1)
    requires parent.id.PacketsAndFrames? ==> Plain(def.name)
    ensures var t := W.JsonBracket(c, def, Some(parent), indent) + s;
            Any(!c, t, indent) && t != [] && (t[0] == '"' || t[0] == '{')
  {
    if def.kind.Array? || !parent.kind.Array? {
      NamedLaid(c, def, parent, indent, s);
    } else {
      TypeLaid(c, def, parent, indent, s);
      var typed := W.JsonType(c, def, Some(parent), indent) + s;
      OpenLaid(c, false, typed, indent);
      Assoc("{", W.StartEnd(c) + W.JsonType(c, def, Some(parent), indent), s);
      Assoc(W.StartEnd(c), W.JsonType(c, def, Some(parent), indent), s);
      Assoc("{", W.StartEnd(c), typed);
    }
  }

  lemma NamedLaid(c: bool, def: SectionDef, parent: SectionDef, indent: int, s: string)
    requires indent >= 1 && !def.kind.Wrapper? && Any(!c, s, indent + 1) && (def.kind.Array? || !parent.kind.Array?)
    requires !c || def.kind.Array? ==> Indented(s, indent + 1)
    ensures var t := W.JsonBracket(c, def, Some(parent), indent) + s;
            Any(!c, t, indent) && t != [] && t[0] == '"'
  {
    var open := if def.kind.Array? then "[\n" else "{" + W.StartEnd(c);
    OpenLaid(c, def.kind.Array?, s, indent);
    AnyOrdinary(!c, ": ", open + s, indent);
    AnyQuoted(!c, def.name, ": " + (open + s), indent);
    assert W.JsonBracket(c, def, Some(parent), indent) == W.Quoted(def.name) + (": " + open);
    Assoc(W.Quoted(def.name), ": " + open, s);
    Assoc(": ", open, s);
  }

  /** The header of a section, with what is inside. */
  lemma HeaderLaid(c: bool, first: bool, def: SectionDef, parent: SectionDef, indent: int, s: string)
    requires indent >= 1 && !def.kind.Wrapper? && Any(!c, s, indent + 1)
    requires !c || def.kind.Array? ==> Indented(s, indent + 1)
    requires parent.id.PacketsAndFrames? ==> Plain(def.name)
    ensures var t := W.JsonHeaderText(c, def, Some(parent), first, indent) + s;
            Any(!c, t, indent) && (first ==> Indented(t, indent))
  {
    var b := W.JsonBracket(c, def, Some(parent), indent);
    var line := W.Indent(indent) + (b + s);
    BracketLaid(c, def, parent, indent, s);
    EntryLine(indent, b + s);
    AnySpaces(!c, 4 * indent, b + s, indent);
    Assoc(W.Indent(indent), b, s);
    if first {
      assert [] + (W.Indent(indent) + b) == W.Indent(indent) + b;
    } else {
      LaterSection(c, line, indent);
      Assoc(",\n", W.Indent(indent) + b, s);
    }
  }

  // ---------------------------------------------------------------- the whole output

  lemma ItemUnfolds(c: bool, parent: SectionDef, first: bool, indent: int, key: string, v: Value, next: Forest, t: string)
    ensures JW.Contents(W.JsonPrinter(c), parent, first, indent, Item(key, v, next), t)
         == W.JsonItem(c, first, indent, key, v) + JW.Contents(W.JsonPrinter(c), parent, false, indent, next, t)
  {
  }

  lemma SectionUnfolds(c: bool, parent: SectionDef, first: bool, indent: int, def: SectionDef, body: Forest,
                       next: Forest, t: string)
    ensures var p := W.JsonPrinter(c);
            var close := W.JsonClose(c, false, def.kind, indent) + JW.Contents(p, parent, false, indent, next, t);
            JW.Contents(p, parent, first, indent, Section(def, body, next), t)
            == W.JsonHeaderText(c, def, Some(parent), first, indent) + JW.Contents(p, def, true, indent + 1, body, close)
  {
  }

  /** The contents of a section are laid out when what follows them is. */
  lemma {:induction false} ContentsLaid(c: bool, parent: SectionDef, first: bool, indent: int, f: Forest, t: string)
    requires indent >= 1 && Shaped(parent, f) && Any(!c, t, indent)
    requires !c || !parent.kind.Object? ==> Indented(t, indent)
    ensures var s := JW.Contents(W.JsonPrinter(c), parent, first, indent, f, t);
            Any(!c, s, indent) && (first && (!c || !parent.kind.Object?) ==> Indented(s, indent))
    decreases f, 0
  {
    match f
    case Done =>
    case Item(key, v, next) =>
      ContentsLaid(c, parent, false, indent, next, t);
      ItemUnfolds(c, parent, first, indent, key, v, next, t);
      ItemLaid(c, first, indent, key, v, JW.Contents(W.JsonPrinter(c), parent, false, indent, next, t));
    case Section(def, body, next) =>
      ContentsLaid(c, parent, false, indent, next, t);
      CloseLaid(c, def.kind, indent, JW.Contents(W.JsonPrinter(c), parent, false, indent, next, t));
      SectionLaid(c, parent, first, indent, def, body, next, t);
  }

  lemma {:induction false} SectionLaid(c: bool, parent: SectionDef, first: bool, indent: int, def: SectionDef,
                                       body: Forest, next: Forest, t: string)
    requires indent >= 1 && Shaped(parent, Section(def, body, next))
    requires var close := W.JsonClose(c, false, def.kind, indent)
                          + JW.Contents(W.JsonPrinter(c), parent, false, indent, next, t);
             Any(!c, close, indent + 1) && (!c || def.kind.Array? ==> Indented(close, indent + 1))
    ensures var s := JW.Contents(W.JsonPrinter(c), parent, first, indent, Section(def, body, next), t);
            Any(!c, s, indent) && (first ==> Indented(s, indent))
    decreases body, 1
  {
    var close := W.JsonClose(c, false, def.kind, indent)
                 + JW.Contents(W.JsonPrinter(c), parent, false, indent, next, t);
    ContentsLaid(c, def, true, indent + 1, body, close);
    SectionUnfolds(c, parent, first, indent, def, body, next, t);
    HeaderLaid(c, first, def, parent, indent, JW.Contents(W.JsonPrinter(c), def, true, indent + 1, body, close));
  }

  /** Every line of the JSON output is empty or indented by four spaces for each bracket that is open
      there, closing brackets of its line left out. Pretty output ends a line after every comma and
      opening bracket and begins one with every closing bracket; compact output does so only around
      arrays and their elements and between sections, and puts a space elsewhere. */
  lemma OutputIsLaid(c: bool, root: SectionDef, f: Forest)
    requires root.kind.Wrapper? && Shaped(root, f)
    ensures Laid(!c, '\n', true, W.Output(W.JsonPrinter(c), root, f).out, 0)
  {
    RootTail(c);
    ContentsLaid(c, root, true, 1, f, "\n}\n");
    JW.MachineOutput(c, root, f);
    RootLaid(c, JW.Contents(W.JsonPrinter(c), root, true, 1, f, "\n}\n"));
  }

  lemma RootLaid(c: bool, s: string)
    requires Any(!c, s, 1) && Indented(s, 1)
    ensures Laid(!c, '\n', true, "{\n" + s, 0)
  {
    AnyLine(!c, s, 1);
    AnyOpen(!c, '{', ['\n'] + s, 0);
    assert "{\n" + s == ['{'] + (['\n'] + s);
  }

  lemma RootTail(c: bool)
    ensures Any(!c, "\n}\n", 1) && Indented("\n}\n", 1)
  {
    assert Indented([], 0) && Any(!c, [], 0);
    AnyLine(!c, [], 0);
    CloseLine(!c, '}', ['\n'] + [], 1);
    assert "\n}\n" == ['\n'] + (W.Spaces(0) + (['}'] + (['\n'] + [])));
  }

  /** In compact output the items of a section are on the line of its bracket. */
  lemma {:induction false} CompactItemsOnOneLine(parent: SectionDef, first: bool, indent: int, f: Forest, t: string)
    requires OnlyItems(f) && '\n' !in t
    ensures '\n' !in JW.Contents(W.JsonPrinter(true), parent, first, indent, f, t)
    decreases f
  {
    match f
    case Done =>
    case Item(key, v, next) =>
      CompactItemsOnOneLine(parent, false, indent, next, t);
      QuotedOneLine(key);
      match v
      case Int(n) => IntOrdinary(n);
      case Str(x) => QuotedOneLine(x);
  }

  predicate OnlyItems(f: Forest) {
    f.Done? || (f.Item? && OnlyItems(f.next))
  }

  lemma {:induction false} QuotedOneLine(x: string)
    ensures '\n' !in J.Escape(x) && '\n' !in W.Quoted(x)
    decreases |x|
  {
    if x != [] {
      QuotedOneLine(x[1..]);
    }
  }
}
