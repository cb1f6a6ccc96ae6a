/** The writer machine of ffprobe: a stack of open sections with item counters and a print buffer
    per level, driven by header, item and footer calls, and its JSON and flat printers. */
module Writer {
  import opened Text
  import opened Decimal
  import opened Sections
  import opened Wrappers
  import Json
  import Escapers

  /** json with its compact option; flat with its separator and hierarchical option. */
  datatype Format = JsonFormat(compact: bool) | FlatFormat(sep: char, hierarchical: bool)

  const MAX_NB_LEVELS: int := 10

  /** An open section: its definition, nb_item and section_pbuf. */
  datatype Level = Level(def: SectionDef, nbItem: nat, pbuf: string)

  /** `packets`, `frames` and `number` are nb_section_packet, nb_section_frame and
      nb_section_packet_frame; `prefixes` is history: the print buffer each header left. */
  datatype Machine = Machine(stack: seq<Level>, packets: nat, frames: nat, number: nat, indent: int,
                             out: string, prefixes: seq<string>)

  /** The functions of a struct Writer, as the texts they print. `open` takes the section, the one
      around it, whether that has no items yet and the indentation; `close` whether the section is the
      outermost, its kind and the indentation; `item` whether it is the first, the indentation, the
      print buffer, the key and the value. `path` is what the header leaves in the print buffer of a
      section inside another, and `step` what it adds to the indentation. */
  datatype Printer = Printer(
    open: (SectionDef, Option<SectionDef>, bool, int) -> string,
    close: (bool, Flag, int) -> string,
    item: (bool, int, string, string, Value) -> string,
    path: Option<(SectionDef, Level, nat) -> string>,
    step: int)

  function JsonPrinter(compact: bool): Printer {
    Printer((def, parent, first, indent) => JsonHeaderText(compact, def, parent, first, indent),
            (outermost, kind, indent) => JsonClose(compact, outermost, kind, indent),
            (first, indent, pbuf, key, v) => JsonItem(compact, first, indent, key, v),
            None, 1)
  }

  function FlatPrinter(sep: char, hierarchical: bool): Printer {
    Printer((def, parent, first, indent) => [], (outermost, kind, indent) => [],
            (first, indent, pbuf, key, v) => FlatItem(pbuf, key, v),
            Some((def, parent: Level, number: nat) => FlatPath(sep, hierarchical, def, parent, number)), 0)
  }

  function PrinterOf(f: Format): Printer {
    match f
    case JsonFormat(compact) => JsonPrinter(compact)
    case FlatFormat(sep, hierarchical) => FlatPrinter(sep, hierarchical)
  }

  const START := Machine([], 0, 0, 0, 0, [], [])

  function Top(stack: seq<Level>): Option<Level> {
    if stack == [] then None else Some(stack[|stack| - 1])
  }

  // ---------------------------------------------------------------- JSON text

  function Spaces(n: nat): string {
    seq(n, _ => ' ')
  }

  /** JSON_INDENT: the padded character is printed even at level 0. */
  function Indent(level: int): string {
    Spaces(if 4 * level < 1 then 1 else 4 * level)
  }

  function ItemSep(compact: bool): string {
    if compact then ", " else ",\n"
  }

  function StartEnd(compact: bool): string {
    if compact then " " else "\n"
  }

  function OptIndent(compact: bool, level: int): string {
    if compact then [] else Indent(level)
  }

  function Quoted(s: string): string {
    ['"'] + (Json.Escape(s) + ['"'])
  }

  /** json_print_section_header without the comma before it. */
  function JsonOpen(compact: bool, def: SectionDef, parent: Option<SectionDef>, indent: int): string {
    if def.kind.Wrapper? then "{\n"
    else Indent(indent) + JsonBracket(compact, def, parent, indent)
  }

  function JsonBracket(compact: bool, def: SectionDef, parent: Option<SectionDef>, indent: int): string {
    if def.kind.Array? then Quoted(def.name) + ": [\n"
    else if parent.Some? && !parent.value.kind.Array? then Quoted(def.name) + (": {" + StartEnd(compact))
    else "{" + (StartEnd(compact) + JsonType(compact, def, parent, indent))
  }

  /** Elements of packets_and_frames start with a member that tells them apart. */
  function JsonType(compact: bool, def: SectionDef, parent: Option<SectionDef>, indent: int): string {
    if parent.Some? && parent.value.id.PacketsAndFrames?
    then OptIndent(compact, indent + 1) + ("\"type\": \"" + (def.name + ("\"" + ItemSep(compact))))
    else []
  }

  /** The text of json_print_section_header. */
  function JsonHeaderText(compact: bool, def: SectionDef, parent: Option<SectionDef>, first: bool, indent: int): string {
    (if first then [] else ",\n") + JsonOpen(compact, def, parent, indent)
  }

  /** The text of json_print_section_footer. */
  function JsonClose(compact: bool, outermost: bool, kind: Flag, indent: int): string {
    if outermost then "\n}\n"
    else if kind.Array? then "\n" + (Indent(indent) + "]")
    else StartEnd(compact) + (OptIndent(compact, indent) + "}")
  }

  function JsonValue(v: Value): string {
    match v
    case Int(n) => IntText(n)
    case Str(s) => Quoted(s)
  }

  /** json_print_str and json_print_int. */
  function JsonItem(compact: bool, first: bool, indent: int, key: string, v: Value): string {
    (if first then [] else ItemSep(compact)) +
    (OptIndent(compact, indent) + (Quoted(key) + (": " + JsonValue(v))))
  }

  // ---------------------------------------------------------------- flat text

  /** What flat_print_section_header adds to the buffer of the parent. */
  function FlatComponent(sep: char, hierarchical: bool, def: SectionDef, parent: SectionDef,
                         number: nat, nbItem: nat): string {
    if hierarchical || def.kind.Object? then
      def.name + ([sep] +
        if parent.kind.Array?
        then NatText(if parent.id.PacketsAndFrames? then number else nbItem) + [sep]
        else [])
    else []
  }

  /** The print buffer flat_print_section_header leaves. */
  function FlatPath(sep: char, hierarchical: bool, def: SectionDef, parent: Level, number: nat): string {
    parent.pbuf + FlatComponent(sep, hierarchical, def, parent.def, number, parent.nbItem)
  }

  /** flat_print_str and flat_print_int. */
  function FlatItem(pbuf: string, key: string, v: Value): string {
    match v
    case Int(n) => pbuf + (key + ("=" + (IntText(n) + "\n")))
    case Str(s) => pbuf + (Escapers.FlatKey(key) + ("=\"" + (Escapers.FlatEscape(s) + "\"\n")))
  }

  // ---------------------------------------------------------------- steps

  /** The counters of writer_print_section_header. */
  function Push(m: Machine, def: SectionDef): Machine {
    var parent := Top(m.stack);
    var m' := m.(stack := m.stack + [Level(def, 0, [])]);
    if def.id.PacketsAndFrames? then m'.(packets := 0, frames := 0, number := 0)
    else if parent.Some? && parent.value.def.id.PacketsAndFrames? then
      m'.(number := if def.id.Packet? then m.packets else m.frames)
    else m'
  }

  /** The level below the top one. */
  function Parent(m: Machine): Option<Level> {
    if |m.stack| < 2 then None else Some(m.stack[|m.stack| - 2])
  }

  /** The printer's print_section_header, for the level just pushed. */
  function Open(p: Printer, m: Machine): Machine {
    if m.stack == [] then m
    else
      var top, parent := m.stack[|m.stack| - 1], Parent(m);
      var pbuf := if p.path.None? || parent.None? then [] else p.path.value(top.def, parent.value, m.number);
      m.(stack := m.stack[|m.stack| - 1 := top.(pbuf := pbuf)],
         out := m.out + p.open(top.def, DefOf(parent), Fresh(parent), m.indent),
         indent := m.indent + p.step, prefixes := m.prefixes + [pbuf])
  }

  function DefOf(l: Option<Level>): Option<SectionDef> {
    if l.None? then None else Some(l.value.def)
  }

  /** Nothing was printed in the section so far. */
  predicate Fresh(l: Option<Level>) {
    l.None? || l.value.nbItem == 0
  }

  /** writer_print_section_header */
  function Header(p: Printer, m: Machine, def: SectionDef): Machine {
    Open(p, Push(m, def))
  }

  /** The counters of writer_print_section_footer. */
  function Count(m: Machine): Machine {
    var n := |m.stack|;
    if n < 2 then m
    else
      var def, parent := m.stack[n - 1].def, m.stack[n - 2];
      var m' := m.(stack := m.stack[n - 2 := parent.(nbItem := parent.nbItem + 1)]);
      if parent.def.id.PacketsAndFrames? then
        if def.id.Packet? then m'.(packets := m.packets + 1) else m'.(frames := m.frames + 1)
      else m'
  }

  /** The printer's print_section_footer. */
  function Close(p: Printer, m: Machine): Machine {
    if m.stack == [] then m
    else m.(out := m.out + p.close(|m.stack| == 1, m.stack[|m.stack| - 1].def.kind, m.indent - p.step),
            indent := m.indent - p.step)
  }

  /** The level is left. */
  function Drop(m: Machine): Machine {
    m.(stack := if m.stack == [] then [] else m.stack[..|m.stack| - 1])
  }

  /** writer_print_section_footer: the counters, the text, one level less. */
  function Footer(p: Printer, m: Machine): Machine {
    Drop(Close(p, Count(m)))
  }

  function Print(m: Machine, text: string): Machine {
    m.(out := m.out + text)
  }

  /** One more item in the top section. */
  function Bump(m: Machine): Machine {
    if m.stack == [] then m
    else
      var top := m.stack[|m.stack| - 1];
      m.(stack := m.stack[|m.stack| - 1 := top.(nbItem := top.nbItem + 1)])
  }

  /** writer_print_integer and writer_print_string for an entry that is shown. */
  function Entry(p: Printer, m: Machine, key: string, v: Value): Machine
    requires m.stack != []
  {
    var top := m.stack[|m.stack| - 1];
    Bump(Print(m, p.item(top.nbItem == 0, m.indent, top.pbuf, key, v)))
  }

  /** The calls for the contents of an open section. */
  function Run(p: Printer, m: Machine, f: Forest): Machine
    decreases f
  {
    match f
    case Done => m
    case Item(key, v, next) => if m.stack == [] then m else Run(p, Entry(p, m, key, v), next)
    case Section(def, body, next) => Run(p, Footer(p, Run(p, Header(p, m, def), body)), next)
  }

  /** A whole output: the root section around the forest. */
  function Output(p: Printer, root: SectionDef, f: Forest): Machine {
    Footer(p, Run(p, Header(p, START, root), f))
  }

  /** The open sections, outermost first. */
  function Defs(s: seq<Level>): (r: seq<SectionDef>)
    ensures |r| == |s| && forall i :: 0 <= i < |s| ==> r[i] == s[i].def
  {
    seq(|s|, i requires 0 <= i < |s| => s[i].def)
  }

  lemma HeaderSections(p: Printer, m: Machine, def: SectionDef)
    ensures Defs(Header(p, m, def).stack) == Defs(m.stack) + [def]
  {
  }

  lemma FooterSections(p: Printer, m: Machine, s: seq<SectionDef>, def: SectionDef)
    requires Defs(m.stack) == s + [def]
    ensures Defs(Footer(p, m).stack) == s
  {
    var n := |m.stack|;
    assert Defs(Count(m).stack) == Defs(m.stack);
    assert Footer(p, m).stack == Count(m).stack[..n - 1];
  }

  /** Printing leaves the same sections open. */
  lemma {:induction false} RunKeepsSections(p: Printer, m: Machine, f: Forest)
    requires m.stack != []
    ensures Defs(Run(p, m, f).stack) == Defs(m.stack)
    decreases f
  {
    match f
    case Done =>
    case Item(key, v, next) =>
      var m1 := Entry(p, m, key, v);
      assert Defs(m1.stack) == Defs(m.stack);
      RunKeepsSections(p, m1, next);
    case Section(def, body, next) =>
      var m1 := Header(p, m, def);
      var m2 := Run(p, m1, body);
      HeaderSections(p, m, def);
      RunKeepsSections(p, m1, body);
      FooterSections(p, m2, Defs(m.stack), def);
      RunKeepsSections(p, Footer(p, m2), next);
  }

  // ---------------------------------------------------------------- hidden entries

  /** The forest without the entries that are not shown. */
  function Visible(shows: (SectionId, string) -> bool, id: SectionId, f: Forest): Forest
    decreases f
  {
    match f
    case Done => Done
    case Item(key, v, next) =>
      if shows(id, key) then Item(key, v, Visible(shows, id, next)) else Visible(shows, id, next)
    case Section(def, body, next) => Section(def, Visible(shows, def.id, body), Visible(shows, id, next))
  }

  lemma {:induction false} VisibleFollows(shows: (SectionId, string) -> bool, id: SectionId, f: Forest)
    requires Follows(id, f)
    ensures Follows(id, Visible(shows, id, f))
    decreases f
  {
    match f
    case Done =>
    case Item(_, _, next) => VisibleFollows(shows, id, next);
    case Section(def, body, next) =>
      VisibleFollows(shows, def.id, body);
      VisibleFollows(shows, id, next);
  }

  // What a flat header leaves: the print buffer, and nothing printed.
  lemma FlatOpens(format: Format, m: Machine, buf: string)
    requires format.FlatFormat? && m.stack != []
    requires buf == if |m.stack| == 1 then []
                    else FlatPath(format.sep, format.hierarchical, m.stack[|m.stack| - 1].def, m.stack[|m.stack| - 2],
                                  m.number)
    ensures var n := |m.stack| - 1;
            Open(PrinterOf(format), m)
            == m.(stack := m.stack[n := m.stack[n].(pbuf := buf)], prefixes := m.prefixes + [buf])
  {
    assert m.out + [] == m.out;
  }

  // ---------------------------------------------------------------- the code

  class WriterContext {
    const format: Format
    const shows: (SectionId, string) -> bool  // show_all_entries or entries_to_show
    var level: int
    const section: array<SectionDef>
    const nb_item: array<nat>
    const section_pbuf: array<string>
    var nb_section_packet: nat
    var nb_section_frame: nat
    var nb_section_packet_frame: nat
    var indent_level: int
    var out: string                           // stdout
    ghost var prefixes: seq<string>

    ghost predicate Valid()
      reads this
    {
      && -1 <= level < MAX_NB_LEVELS
      && section.Length == MAX_NB_LEVELS && nb_item.Length == MAX_NB_LEVELS && section_pbuf.Length == MAX_NB_LEVELS
    }

    ghost function Stack(): (r: seq<Level>)
      requires Valid()
      reads this, section, nb_item, section_pbuf
      ensures |r| == level + 1
      ensures forall i :: 0 <= i <= level ==> r[i] == Level(section[i], nb_item[i], section_pbuf[i])
    {
      seq(level + 1, i requires 0 <= i <= level && Valid() reads this, section, nb_item, section_pbuf =>
        Level(section[i], nb_item[i], section_pbuf[i]))
    }

    ghost function Model(): Machine
      requires Valid()
      reads this, section, nb_item, section_pbuf
    {
      Machine(Stack(), nb_section_packet, nb_section_frame, nb_section_packet_frame, indent_level, out, prefixes)
    }

    /** writer_open */
    constructor (format: Format, shows: (SectionId, string) -> bool)
      ensures this.format == format && this.shows == shows
      ensures Valid() && fresh(section) && fresh(nb_item) && fresh(section_pbuf) && Model() == START
    {
      this.format, this.shows, level := format, shows, -1;
      section := new SectionDef[MAX_NB_LEVELS](_ => SectionDef(Root, [], Wrapper));
      nb_item := new nat[MAX_NB_LEVELS](_ => 0);
      section_pbuf := new string[MAX_NB_LEVELS](_ => []);
      nb_section_packet, nb_section_frame, nb_section_packet_frame := 0, 0, 0;
      indent_level, out, prefixes := 0, [], [];
    }

    /** writer_print_section_header; the assertion on the level is the precondition. */
    method PrintSectionHeader(def: SectionDef)
      requires Valid() && level + 1 < MAX_NB_LEVELS
      modifies this, section, nb_item, section_pbuf
      ensures Valid() && Model() == Header(PrinterOf(format), old(Model()), def)
    {
      PushSection(def);
      if format.JsonFormat? {
        JsonSectionHeader();
      } else {
        FlatSectionHeader();
      }
    }

    /** The generic part of the header. */
    method PushSection(def: SectionDef)
      requires Valid() && level + 1 < MAX_NB_LEVELS
      modifies this, section, nb_item, section_pbuf
      ensures Valid() && Model() == Push(old(Model()), def)
    {
      level := level + 1;
      nb_item[level] := 0;
      section[level] := def;
      section_pbuf[level] := [];  // the writers that use the buffer clear it first
      if def.id.PacketsAndFrames? {
        nb_section_packet, nb_section_frame, nb_section_packet_frame := 0, 0, 0;
      } else if level > 0 && section[level - 1].id.PacketsAndFrames? {
        nb_section_packet_frame := if def.id.Packet? then nb_section_packet else nb_section_frame;
      }
      assert Stack() == old(Stack()) + [Level(def, 0, [])];
    }

    /** json_print_section_header */
    method JsonSectionHeader()
      requires Valid() && level >= 0 && format.JsonFormat? && section_pbuf[level] == []
      modifies this`out, this`indent_level, this`prefixes
      ensures Valid() && Model() == Open(PrinterOf(format), old(Model()))
    {
      var text := JsonOpenText();
      indent_level := indent_level + 1;
      out := out + text;
      prefixes := prefixes + [[]];
      assert Stack() == old(Stack())[level := Level(section[level], nb_item[level], [])];
    }

    /** What the header prints. */
    method JsonOpenText() returns (text: string)
      requires Valid() && level >= 0 && format.JsonFormat?
      ensures text == JsonHeaderText(format.compact, section[level], DefOf(Parent(Model())), Fresh(Parent(Model())),
                                     indent_level)
    {
      var comma: string := [];
      if level > 0 && nb_item[level - 1] > 0 {
        comma := ",\n";
      }
      var open := JsonOpening();
      text := comma + open;
    }

    /** The header without the comma. */
    method JsonOpening() returns (text: string)
      requires Valid() && level >= 0 && format.JsonFormat?
      ensures text == JsonOpen(format.compact, section[level], DefOf(Parent(Model())), indent_level)
    {
      if section[level].kind.Wrapper? {
        return "{\n";
      }
      var bracket := JsonBracketText();
      text := Indent(indent_level) + bracket;
    }

    /** The part of the header from the name on. */
    method JsonBracketText() returns (text: string)
      requires Valid() && level >= 0 && format.JsonFormat?
      ensures text == JsonBracket(format.compact, section[level], DefOf(Parent(Model())), indent_level)
    {
      var compact, def := format.compact, section[level];
      var buf := Json.JsonEscapeStr(def.name);
      if def.kind.Array? {
        text := (['"'] + (buf + ['"'])) + ": [\n";
      } else if level > 0 && !section[level - 1].kind.Array? {
        text := (['"'] + (buf + ['"'])) + (": {" + StartEnd(compact));
      } else {
        var kind: string := [];
        if level > 0 && section[level - 1].id.PacketsAndFrames? {
          kind := OptIndent(compact, indent_level + 1) + ("\"type\": \"" + (def.name + ("\"" + ItemSep(compact))));
        }
        text := "{" + (StartEnd(compact) + kind);
      }
    }

    /** flat_print_section_header */
    method FlatSectionHeader()
      requires Valid() && level >= 0 && format.FlatFormat?
      modifies this`prefixes, section_pbuf
      ensures Valid() && Model() == Open(PrinterOf(format), old(Model()))
    {
      var buf := FlatBuffer();
      FlatOpens(format, Model(), buf);
      section_pbuf[level] := buf;
      prefixes := prefixes + [buf];
      assert Stack() == old(Stack())[level := old(Stack())[level].(pbuf := buf)];
    }

    /** The print buffer of the level. */
    method FlatBuffer() returns (buf: string)
      requires Valid() && level >= 0 && format.FlatFormat?
      ensures buf == if level == 0 then []
                     else FlatPath(format.sep, format.hierarchical, section[level], Stack()[level - 1],
                               nb_section_packet_frame)
    {
      buf := [];
      if level > 0 {
        var def, parent := section[level], section[level - 1];
        buf := section_pbuf[level - 1];
        if format.hierarchical || def.kind.Object? {
          var tail: string := [];
          if parent.kind.Array? {
            var n := if parent.id.PacketsAndFrames? then nb_section_packet_frame else nb_item[level - 1];
            tail := NatText(n) + [format.sep];
          }
          buf := buf + (def.name + ([format.sep] + tail));
        } else {
          assert buf + [] == buf;
        }
      }
    }

    /** One more section in the section around it. */
    method CountInParent()
      requires Valid() && level > 0
      modifies nb_item
      ensures var parent := old(Stack())[level - 1];
              Stack() == old(Stack())[level - 1 := parent.(nbItem := parent.nbItem + 1)]
    {
      nb_item[level - 1] := nb_item[level - 1] + 1;
    }

    /** The counters of the footer. */
    method CountSection()
      requires Valid() && level >= 0
      modifies this`nb_section_packet, this`nb_section_frame, nb_item
      ensures Valid() && Model() == Count(old(Model()))
    {
      if level > 0 {
        CountInParent();
        ghost var stack := Stack();
        if section[level - 1].id.PacketsAndFrames? {
          if section[level].id.Packet? {
            nb_section_packet := nb_section_packet + 1;
          } else {
            nb_section_frame := nb_section_frame + 1;
          }
        }
        assert Stack() == stack;
      } else {
        assert Stack() == old(Stack());
      }
    }

    /** json_print_section_footer */
    method JsonSectionFooter()
      requires Valid() && level >= 0 && format.JsonFormat?
      modifies this`out, this`indent_level
      ensures Valid() && Model() == Close(PrinterOf(format), old(Model()))
    {
      var compact := format.compact;
      indent_level := indent_level - 1;
      if level == 0 {
        out := out + "\n}\n";
      } else if section[level].kind.Array? {
        out := out + ("\n" + (Indent(indent_level) + "]"));
      } else {
        out := out + (StartEnd(compact) + (OptIndent(compact, indent_level) + "}"));
      }
      assert Stack() == old(Stack());
    }

    /** writer_print_section_footer */
    method PrintSectionFooter()
      requires Valid() && level >= 0
      modifies this, nb_item
      ensures Valid() && Model() == Footer(PrinterOf(format), old(Model()))
    {
      CountSection();
      if format.JsonFormat? {
        JsonSectionFooter();
      } else {
        assert out + [] == out;
      }
      ghost var full := Stack();
      level := level - 1;
      assert Stack() == full[..level + 1];
    }

    /** json_print_str and json_print_int */
    method JsonPrintItem(key: string, v: Value)
      requires Valid() && level >= 0 && format.JsonFormat?
      modifies this`out
      ensures Model() == Print(old(Model()),
                               PrinterOf(format).item(nb_item[level] == 0, indent_level, section_pbuf[level], key, v))
    {
      var k := Json.JsonEscapeStr(key);
      var value: string;
      match v {
        case Int(n) => value := IntText(n);
        case Str(s) =>
          var e := Json.JsonEscapeStr(s);
          value := ['"'] + (e + ['"']);
      }
      out := out + ((if nb_item[level] > 0 then ItemSep(format.compact) else []) +
                    (OptIndent(format.compact, indent_level) + (['"'] + (k + ['"']) + (": " + value))));
      assert Stack() == old(Stack());
    }

    /** flat_print_str and flat_print_int */
    method FlatPrintItem(key: string, v: Value)
      requires Valid() && level >= 0 && format.FlatFormat?
      modifies this`out
      ensures Model() == Print(old(Model()),
                               PrinterOf(format).item(nb_item[level] == 0, indent_level, section_pbuf[level], key, v))
    {
      match v {
        case Int(n) => out := out + (section_pbuf[level] + (key + ("=" + (IntText(n) + "\n"))));
        case Str(s) =>
          var k := Escapers.FlatEscapeKeyStr(key);
          var e := Escapers.FlatEscapeValueStr(s);
          out := out + (section_pbuf[level] + (k + ("=\"" + (e + "\"\n"))));
      }
      assert Stack() == old(Stack());
    }

    /** One more item in the section. */
    method CountItem()
      requires Valid() && level >= 0
      modifies nb_item
      ensures Valid() && Model() == Bump(old(Model()))
    {
      nb_item[level] := nb_item[level] + 1;
      assert Stack() == old(Stack())[level := old(Stack())[level].(nbItem := nb_item[level])];
    }

    /** writer_print_integer, and writer_print_string without string validation. Optional strings
        are only for writers with WRITER_FLAG_DISPLAY_OPTIONAL_FIELDS, which json has not. */
    method PrintEntry(key: string, v: Value, optional: bool)
      requires Valid() && level >= 0
      modifies this`out, nb_item
      ensures Valid()
      ensures Model() == if (optional && format.JsonFormat?) || !shows(section[level].id, key) then old(Model())
                         else Entry(PrinterOf(format), old(Model()), key, v)
    {
      if (optional && format.JsonFormat?) || !shows(section[level].id, key) {
        return;
      }
      PrintShown(key, v);
    }

    // An entry that is shown.
    method PrintShown(key: string, v: Value)
      requires Valid() && level >= 0
      modifies this`out, nb_item
      ensures Valid() && Model() == Entry(PrinterOf(format), old(Model()), key, v)
    {
      if format.JsonFormat? {
        JsonPrintItem(key, v);
      } else {
        FlatPrintItem(key, v);
      }
      CountItem();
    }

    /** The calls that print what an open section contains. */
    method PrintForest(f: Forest)
      requires Valid() && level >= 0 && level + Depth(f) < MAX_NB_LEVELS
      modifies this, section, nb_item, section_pbuf
      ensures Valid() && level == old(level)
      ensures Model() == Run(PrinterOf(format), old(Model()), Visible(shows, old(section[level].id), f))
      decreases f, 0
    {
      match f {
        case Done =>
        case Item(key, v, next) =>
          PrintEntry(key, v, false);
          PrintForest(next);
        case Section(def, body, next) =>
          PrintSection(def, body);
          PrintForest(next);
      }
    }

    /** One section inside the open one. */
    method PrintSection(def: SectionDef, body: Forest)
      requires Valid() && level >= 0 && level + 1 + Depth(body) < MAX_NB_LEVELS
      modifies this, section, nb_item, section_pbuf
      ensures Valid() && Defs(Stack()) == old(Defs(Stack()))
      ensures Model() == Footer(PrinterOf(format), Run(PrinterOf(format), Header(PrinterOf(format), old(Model()), def),
                                                       Visible(shows, def.id, body)))
      decreases body, 1
    {
      ghost var p, m, shown := PrinterOf(format), Model(), Visible(shows, def.id, body);
      HeaderSections(p, m, def);
      PrintSectionHeader(def);
      ghost var m1 := Model();
      assert Defs(m1.stack)[level] == def;
      PrintForest(body);
      RunKeepsSections(p, m1, shown);
      FooterSections(p, Model(), Defs(m.stack), def);
      PrintSectionFooter();
    }
  }
}
