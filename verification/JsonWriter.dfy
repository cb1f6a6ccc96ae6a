/** What ffprobe's JSON writer prints, read back under RFC 8259. The stack machine of the writer is
    first shown to print what a plain recursion over the section tree prints, then that text is
    shown to read back as the tree. */
module JsonWriter {
  import opened Text
  import opened Decimal
  import opened Sections
  import opened Wrappers
  import W = Writer
  import J = Json

  // ---------------------------------------------------------------- the text by recursion

  /** The contents of an open section of definition `parent`, then `t`. `first` tells that nothing
      was printed in the section before. */
  function Contents(p: W.Printer, parent: SectionDef, first: bool, indent: int, f: Forest, t: string): string
    decreases f
  {
    match f
    case Done => t
    case Item(key, v, next) =>
      p.item(first, indent, [], key, v) + Contents(p, parent, false, indent, next, t)
    case Section(def, body, next) =>
      p.open(def, Some(parent), first, indent)
      + Contents(p, def, true, indent + p.step, body,
                 p.close(false, def.kind, indent) + Contents(p, parent, false, indent, next, t))
  }

  function Size(f: Forest): nat {
    match f
    case Done => 0
    case Item(_, _, next) => 1 + Size(next)
    case Section(_, _, next) => 1 + Size(next)
  }

  function Top(m: W.Machine): W.Level
    requires m.stack != []
  {
    m.stack[|m.stack| - 1]
  }

  /** From `m` to `m'` the machine printed `text`, which ends with `t` still to come, and counted
      `size` entries in the open section; everything else on the stack is as before. */
  ghost predicate Printed(m: W.Machine, m': W.Machine, text: string, t: string, size: nat)
    requires m.stack != []
  {
    m'.out + t == m.out + text && m'.indent == m.indent && m'.stack == Counted(m.stack, size)
  }

  function Counted(s: seq<W.Level>, n: nat): seq<W.Level>
    requires s != []
  {
    s[|s| - 1 := s[|s| - 1].(nbItem := s[|s| - 1].nbItem + n)]
  }

  /** One step of the machine: `piece` printed, the indentation and the stack changed. */
  ghost predicate Stepped(m: W.Machine, m': W.Machine, piece: string, indent: int, stack: seq<W.Level>) {
    m'.out == m.out + piece && m'.indent == indent && m'.stack == stack
  }

  lemma HeaderIs(p: W.Printer, m: W.Machine, def: SectionDef)
    requires p.path.None? && m.stack != []
    ensures Stepped(m, W.Header(p, m, def), p.open(def, Some(Top(m).def), Top(m).nbItem == 0, m.indent),
                    m.indent + p.step, m.stack + [W.Level(def, 0, [])])
  {
    var m1 := W.Push(m, def);
    assert m1.stack == m.stack + [W.Level(def, 0, [])] && W.Parent(m1) == Some(Top(m));
  }

  lemma FooterIs(p: W.Printer, m: W.Machine, s: seq<W.Level>, kind: Flag, indent: int)
    requires |m.stack| == |s| + 1 && s != [] && m.stack[..|s|] == s
    requires Top(m).def.kind == kind && m.indent == indent + p.step
    ensures Stepped(m, W.Footer(p, m), p.close(false, kind, indent), indent, Counted(s, 1))
  {
    var m1 := W.Count(m);
    var n := |s| - 1;
    assert m1.stack == m.stack[n := m.stack[n].(nbItem := m.stack[n].nbItem + 1)] && Top(m1) == Top(m);
    assert m1.stack[..n + 1] == Counted(s, 1);
  }

  /** The open section of the machine. */
  predicate At(m: W.Machine, def: SectionDef, first: bool, indent: int) {
    m.stack != [] && Top(m).def == def && Top(m).pbuf == [] && (Top(m).nbItem == 0) == first && m.indent == indent
  }

  /** A writer without a print buffer prints exactly the recursive text. */
  lemma {:induction false} MachinePrints(p: W.Printer, m: W.Machine, parent: SectionDef, first: bool, indent: int,
                                         f: Forest, t: string)
    requires p.path.None? && At(m, parent, first, indent)
    ensures Printed(m, W.Run(p, m, f), Contents(p, parent, first, indent, f, t), t, Size(f))
    decreases f, 1
  {
    match f
    case Done =>
    case Item(key, v, next) =>
      var m1 := W.Entry(p, m, key, v);
      MachinePrints(p, m1, parent, false, indent, next, t);
      ItemStep(m, m1, W.Run(p, m, f), p.item(first, indent, [], key, v),
               Contents(p, parent, false, indent, next, t), t, Size(next));
    case Section(def, body, next) =>
      SectionPrints(p, m, parent, first, indent, def, body, next, t);
  }

  lemma {:induction false} SectionPrints(p: W.Printer, m: W.Machine, parent: SectionDef, first: bool, indent: int,
                                         def: SectionDef, body: Forest, next: Forest, t: string)
    requires p.path.None? && At(m, parent, first, indent)
    ensures var f := Section(def, body, next);
            Printed(m, W.Run(p, m, f), Contents(p, parent, first, indent, f, t), t, Size(f))
    decreases Section(def, body, next), 0
  {
    var m3 := W.Footer(p, W.Run(p, W.Header(p, m, def), body));
    var rest := Contents(p, parent, false, indent, next, t);
    BodyPrints(p, m, parent, first, indent, def, body, rest);
    StillAt(m, m3, parent, first, indent);
    MachinePrints(p, m3, parent, false, indent, next, t);
    RunUnfolds(p, m, def, body, next);
    ContentsUnfolds(p, parent, first, indent, def, body, next, t);
    var f := Section(def, body, next);
    OneMore(m, m3, W.Run(p, m, f), Contents(p, parent, first, indent, f, t), rest, t, Size(next), Size(f));
  }

  // From the header to the footer of a section, with `rest` still to come.
  lemma {:induction false} BodyPrints(p: W.Printer, m: W.Machine, parent: SectionDef, first: bool, indent: int,
                                      def: SectionDef, body: Forest, rest: string)
    requires p.path.None? && At(m, parent, first, indent)
    ensures var m3 := W.Footer(p, W.Run(p, W.Header(p, m, def), body));
            Printed(m, m3, p.open(def, Some(parent), first, indent)
                           + Contents(p, def, true, indent + p.step, body, p.close(false, def.kind, indent) + rest),
                    rest, 1)
    decreases body, 2
  {
    var m1 := W.Header(p, m, def);
    var m2 := W.Run(p, m1, body);
    var m3 := W.Footer(p, m2);
    var close := p.close(false, def.kind, indent);
    HeaderIs(p, m, def);
    MachinePrints(p, m1, def, true, indent + p.step, body, close + rest);
    StackStep(m.stack, W.Level(def, 0, []), Size(body));
    FooterIs(p, m2, m.stack, def.kind, indent);
    SectionStep(p, m, m1, m2, m3, def, p.open(def, Some(parent), first, indent),
                Contents(p, def, true, indent + p.step, body, close + rest), close, rest, Size(body));
  }

  // With an entry more, the same section is open.
  lemma StillAt(m: W.Machine, m': W.Machine, parent: SectionDef, first: bool, indent: int)
    requires At(m, parent, first, indent) && m'.stack == Counted(m.stack, 1) && m'.indent == m.indent
    ensures At(m', parent, false, indent)
  {
  }

  lemma OneMore(m: W.Machine, m1: W.Machine, m2: W.Machine, text: string, rest: string, t: string, n: nat, all: nat)
    requires m.stack != [] && Printed(m, m1, text, rest, 1) && Printed(m1, m2, rest, t, n) && all == 1 + n
    ensures Printed(m, m2, text, t, all)
  {
  }

  lemma RunUnfolds(p: W.Printer, m: W.Machine, def: SectionDef, body: Forest, next: Forest)
    ensures W.Run(p, m, Section(def, body, next))
         == W.Run(p, W.Footer(p, W.Run(p, W.Header(p, m, def), body)), next)
  {
  }

  lemma ContentsUnfolds(p: W.Printer, parent: SectionDef, first: bool, indent: int, def: SectionDef, body: Forest,
                        next: Forest, t: string)
    ensures Contents(p, parent, first, indent, Section(def, body, next), t)
         == p.open(def, Some(parent), first, indent)
            + Contents(p, def, true, indent + p.step, body,
                       p.close(false, def.kind, indent) + Contents(p, parent, false, indent, next, t))
  {
  }

  // The stack with a level more, its items counted, without that level.
  lemma StackStep(s: seq<W.Level>, l: W.Level, n: nat)
    requires s != []
    ensures var s' := Counted(s + [l], n);
            |s'| == |s| + 1 && s'[..|s|] == s && s'[|s|].def == l.def
  {
  }

  lemma ItemStep(m: W.Machine, m1: W.Machine, m2: W.Machine, item: string, rest: string, t: string, n: nat)
    requires m.stack != [] && Stepped(m, m1, item, m.indent, Counted(m.stack, 1)) && Printed(m1, m2, rest, t, n)
    ensures Printed(m, m2, item + rest, t, 1 + n)
  {
    Assoc(m.out, item, rest);
  }

  lemma SectionStep(p: W.Printer, m: W.Machine, m1: W.Machine, m2: W.Machine, m3: W.Machine, def: SectionDef,
                    head: string, inside: string, close: string, rest: string, inner: nat)
    requires m.stack != [] && Stepped(m, m1, head, m.indent + p.step, m.stack + [W.Level(def, 0, [])])
    requires Printed(m1, m2, inside, close + rest, inner)
    requires Stepped(m2, m3, close, m.indent, Counted(m.stack, 1))
    ensures Printed(m, m3, head + inside, rest, 1)
  {
    Assoc(m2.out, close, rest);
    Assoc(m.out, head, inside);
  }

  // ---------------------------------------------------------------- the whole output

  /** A whole output. */
  function Document(c: bool, root: SectionDef, f: Forest): string {
    "{\n" + Contents(W.JsonPrinter(c), root, true, 1, f, "\n}\n")
  }

  /** The output of the machine is the recursive text. */
  lemma MachineOutput(c: bool, root: SectionDef, f: Forest)
    requires root.kind.Wrapper?
    ensures W.Output(W.JsonPrinter(c), root, f).out == Document(c, root, f)
  {
    var p := W.JsonPrinter(c);
    var m := W.Header(p, W.START, root);
    RootHeader(c, root);
    MachinePrints(p, m, root, true, 1, f, "\n}\n");
    var m' := W.Run(p, m, f);
    assert m'.stack == [W.Level(root, Size(f), [])];
    RootFooter(c, m');
  }

  lemma RootHeader(c: bool, root: SectionDef)
    requires root.kind.Wrapper?
    ensures var m := W.Header(W.JsonPrinter(c), W.START, root);
            m.out == "{\n" && m.indent == 1 && m.stack == [W.Level(root, 0, [])]
  {
    assert [] + ([] + "{\n") == "{\n";
  }

  lemma RootFooter(c: bool, m: W.Machine)
    requires |m.stack| == 1
    ensures W.Footer(W.JsonPrinter(c), m).out == m.out + "\n}\n"
  {
  }

  // ---------------------------------------------------------------- the tree as a JSON value

  function ValueJson(v: Value): J.Json {
    match v
    case Int(n) => J.JInt(n)
    case Str(s) => J.JString(s)
  }

  function MembersOf(f: Forest): J.Members
    decreases f, 0
  {
    match f
    case Done => J.NoMember
    case Item(key, v, next) => J.Member(key, ValueJson(v), MembersOf(next))
    case Section(def, body, next) => J.Member(def.name, SectionJson(def, false, body), MembersOf(next))
  }

  function ElementsOf(f: Forest, typed: bool): J.Elements
    decreases f, 0
  {
    match f
    case Done => J.NoElement
    case Item(_, _, next) => ElementsOf(next, typed)  // arrays have no items
    case Section(def, body, next) => J.Element(SectionJson(def, typed, body), ElementsOf(next, typed))
  }

  /** An array section is an array, any other an object; `typed` elements tell their section name. */
  function SectionJson(def: SectionDef, typed: bool, body: Forest): J.Json
    decreases body, 1
  {
    if def.kind.Array? then J.JArray(ElementsOf(body, def.id.PacketsAndFrames?))
    else J.JObject(if typed then J.Member("type", J.JString(def.name), MembersOf(body)) else MembersOf(body))
  }

  /** Every element of packets_and_frames shows at least one entry. */
  predicate Good(parent: SectionDef, f: Forest)
    decreases f
  {
    match f
    case Done => true
    case Item(_, _, next) => Good(parent, next)
    case Section(def, body, next) =>
      (parent.id.PacketsAndFrames? ==> body != Done) && Good(def, body) && Good(parent, next)
  }

  // ---------------------------------------------------------------- reading one piece

  lemma IndentWs(level: int)
    ensures J.AllWs(W.Indent(level))
  {
  }

  lemma JoinWs(a: string, b: string)
    requires J.AllWs(a) && J.AllWs(b)
    ensures J.AllWs(a + b)
  {
  }

  /** The text of a member: its key, a colon, and `t`. */
  function KeyText(key: string, t: string): string {
    ['"'] + (J.Escape(key) + (['"'] + ([':'] + t)))
  }

  /** What ReadMembers makes of a key once the value is read. */
  function AfterMember(key: string, v: Option<(J.Json, string)>): Option<(J.Members, string)> {
    if v.None? then None
    else
      var w := J.SkipWs(v.value.1);
      if J.Is(w, '}') then Some((J.Member(key, v.value.0, J.NoMember), w[1..]))
      else if J.Is(w, ',') then
        var more := J.ReadMembers(w[1..]);
        if more.None? then None else Some((J.Member(key, v.value.0, more.value.0), more.value.1))
      else None
  }

  lemma KeyReads(w: string, key: string, t: string)
    requires J.AllWs(w)
    ensures J.ReadMembers(w + KeyText(key, t)) == AfterMember(key, J.ReadValue(t))
  {
    var s := KeyText(key, t);
    J.SkipOver(w, s);
    assert J.SkipWs(s) == s;
    Cut(['"'], J.Escape(key) + (['"'] + ([':'] + t)));
    J.EscapeReadsBack(key, [':'] + t);
    Cut([':'], t);
  }

  /** The reader is past a value and meets what follows it in an object. */
  lemma AfterMemberIs(key: string, v: J.Json, t: string, more: string, last: bool)
    requires if last then J.SkipWs(t) == ['}'] + more else t == [','] + more
    ensures AfterMember(key, Some((v, t))) ==
            if last then Some((J.Member(key, v, J.NoMember), more))
            else if J.ReadMembers(more).None? then None
            else Some((J.Member(key, v, J.ReadMembers(more).value.0), J.ReadMembers(more).value.1))
  {
    Cut(['}'], more);
    Cut([','], more);
  }

  lemma ItemValueReads(v: Value, t: string)
    requires t != [] && !IsDigit(t[0])
    ensures J.ReadValue([' '] + (W.JsonValue(v) + t)) == Some((ValueJson(v), t))
  {
    J.SkipOver([' '], W.JsonValue(v) + t);
    match v
    case Int(n) => IntReads(n, t);
    case Str(str) => StringReads(str, t);
  }

  lemma IntReads(n: int, t: string)
    requires t != [] && !IsDigit(t[0])
    ensures J.ReadValue([' '] + (IntText(n) + t)) == Some((J.JInt(n), t))
  {
    var s := IntText(n) + t;
    J.SkipOver([' '], s);
    assert s[0] == IntText(n)[0];
    J.ReadIntText(n, t);
  }

  lemma StringReads(str: string, t: string)
    ensures J.ReadValue([' '] + (W.Quoted(str) + t)) == Some((J.JString(str), t))
  {
    J.SkipOver([' '], W.Quoted(str) + t);
    Assoc(['"'], J.Escape(str) + ['"'], t);
    Assoc(J.Escape(str), ['"'], t);
    Cut(['"'], J.Escape(str) + (['"'] + t));
    J.EscapeReadsBack(str, t);
  }

  // ---------------------------------------------------------------- the shape of the text

  /** The text after the separator of the next entry. */
  function Gap(c: bool, f: Forest): string {
    if f.Item? && c then " " else "\n"
  }

  /** A later entry is a comma, white space, and the text it would have as the first. */
  lemma LaterEntry(c: bool, parent: SectionDef, indent: int, f: Forest, t: string)
    requires f != Done
    ensures Contents(W.JsonPrinter(c), parent, false, indent, f, t)
         == [','] + (Gap(c, f) + Contents(W.JsonPrinter(c), parent, true, indent, f, t))
  {
    match f
    case Item(key, v, next) =>
      var e := W.OptIndent(c, indent) + (W.Quoted(key) + (": " + W.JsonValue(v)));
      var rest := Contents(W.JsonPrinter(c), parent, false, indent, next, t);
      assert W.ItemSep(c) == [','] + Gap(c, f);
      assert W.JsonItem(c, true, indent, key, v) == [] + e == e;
      assert W.JsonItem(c, false, indent, key, v) == W.ItemSep(c) + e;
      Assoc(W.ItemSep(c), e, rest);
      Assoc([','], Gap(c, f), e + rest);
    case Section(def, body, next) =>
      var open := W.JsonOpen(c, def, Some(parent), indent);
      var rest := Contents(W.JsonPrinter(c), def, true, indent + 1, body,
                           W.JsonClose(c, false, def.kind, indent)
                           + Contents(W.JsonPrinter(c), parent, false, indent, next, t));
      assert ",\n" == [','] + "\n";
      assert W.JsonHeaderText(c, def, Some(parent), true, indent) == [] + open == open;
      assert W.JsonHeaderText(c, def, Some(parent), false, indent) == ",\n" + open;
      Assoc(",\n", open, rest);
      Assoc([','], "\n", open + rest);
  }

  lemma ItemEntry(c: bool, parent: SectionDef, indent: int, key: string, v: Value, next: Forest, t: string)
    ensures Contents(W.JsonPrinter(c), parent, true, indent, Item(key, v, next), t)
         == W.OptIndent(c, indent)
            + KeyText(key, [' '] + (W.JsonValue(v) + Contents(W.JsonPrinter(c), parent, false, indent, next, t)))
  {
    var i, q, val, rest := W.OptIndent(c, indent), W.Quoted(key), W.JsonValue(v),
                           Contents(W.JsonPrinter(c), parent, false, indent, next, t);
    assert W.JsonItem(c, true, indent, key, v) == [] + (i + (q + (": " + val))) == i + (q + (": " + val));
    Assoc(i, q + (": " + val), rest);
    Assoc(q, ": " + val, rest);
    Assoc(": ", val, rest);
    assert ": " == [':'] + [' '];
    Assoc([':'], [' '], val + rest);
    QuotedKey(key, [' '] + (val + rest));
  }

  lemma QuotedKey(key: string, t: string)
    ensures W.Quoted(key) + ([':'] + t) == KeyText(key, t)
  {
    Assoc(['"'], J.Escape(key) + ['"'], [':'] + t);
    Assoc(J.Escape(key), ['"'], [':'] + t);
  }

  /** The contents of a section up to its closing bracket, and what follows it. */
  function Inside(c: bool, def: SectionDef, indent: int, body: Forest, rest: string): string {
    Contents(W.JsonPrinter(c), def, true, indent + 1, body, W.JsonClose(c, false, def.kind, indent) + rest)
  }

  /** A section as a member of an object. */
  lemma SectionMember(c: bool, parent: SectionDef, indent: int, def: SectionDef, body: Forest, next: Forest, t: string)
    requires !parent.kind.Array? && !def.kind.Wrapper?
    ensures Contents(W.JsonPrinter(c), parent, true, indent, Section(def, body, next), t)
         == W.Indent(indent)
            + KeyText(def.name, [' '] + (
                        if def.kind.Array?
                        then ['['] + ("\n" + Inside(c, def, indent, body,
                                                    Contents(W.JsonPrinter(c), parent, false, indent, next, t)))
                        else ['{'] + (W.StartEnd(c) + Inside(c, def, indent, body,
                                                             Contents(W.JsonPrinter(c), parent, false, indent, next, t)))))
  {
    var inside := Inside(c, def, indent, body, Contents(W.JsonPrinter(c), parent, false, indent, next, t));
    var mark, gap := if def.kind.Array? then ['['] else ['{'], if def.kind.Array? then "\n" else W.StartEnd(c);
    BracketIs(c, def, parent, indent);
    MemberPieces(W.Indent(indent), def.name, mark, gap, inside);
  }

  lemma BracketIs(c: bool, def: SectionDef, parent: SectionDef, indent: int)
    requires !parent.kind.Array? && !def.kind.Wrapper?
    ensures var mark, gap := if def.kind.Array? then ['['] else ['{'], if def.kind.Array? then "\n" else W.StartEnd(c);
            W.JsonHeaderText(c, def, Some(parent), true, indent)
            == W.Indent(indent) + (W.Quoted(def.name) + ([':'] + ([' '] + (mark + gap))))
  {
    var q := W.Quoted(def.name);
    assert ": [\n" == [':'] + ([' '] + (['['] + "\n"));
    assert ": {" + W.StartEnd(c) == [':'] + ([' '] + (['{'] + W.StartEnd(c)));
    var open := W.JsonOpen(c, def, Some(parent), indent);
    assert [] + open == open;
  }

  lemma MemberPieces(i: string, name: string, mark: string, gap: string, inside: string)
    ensures (i + (W.Quoted(name) + ([':'] + ([' '] + (mark + gap))))) + inside
         == i + KeyText(name, [' '] + (mark + (gap + inside)))
  {
    var tail := [':'] + ([' '] + (mark + gap));
    Assoc(i, W.Quoted(name) + tail, inside);
    Assoc(W.Quoted(name), tail, inside);
    Assoc([':'], [' '] + (mark + gap), inside);
    Assoc([' '], mark + gap, inside);
    Assoc(mark, gap, inside);
    QuotedKey(name, [' '] + (mark + (gap + inside)));
  }

  /** A section as an element of an array. */
  lemma SectionElement(c: bool, parent: SectionDef, indent: int, def: SectionDef, body: Forest, next: Forest, t: string)
    requires parent.kind.Array? && def.kind.Object?
    ensures Contents(W.JsonPrinter(c), parent, true, indent, Section(def, body, next), t)
         == W.Indent(indent)
            + (['{'] + (W.StartEnd(c) + (W.JsonType(c, def, Some(parent), indent)
                                         + Inside(c, def, indent, body,
                                                  Contents(W.JsonPrinter(c), parent, false, indent, next, t)))))
  {
    var inside := Inside(c, def, indent, body, Contents(W.JsonPrinter(c), parent, false, indent, next, t));
    var i, gap, ty := W.Indent(indent), W.StartEnd(c), W.JsonType(c, def, Some(parent), indent);
    assert W.JsonHeaderText(c, def, Some(parent), true, indent) == [] + (i + ("{" + (gap + ty))) == i + ("{" + (gap + ty));
    assert "{" == ['{'];
    Assoc(i, ['{'] + (gap + ty), inside);
    Assoc(['{'], gap + ty, inside);
    Assoc(gap, ty, inside);
  }

  lemma TypeText(c: bool, def: SectionDef, parent: SectionDef, indent: int, t: string)
    requires parent.id.PacketsAndFrames? && Plain(def.name)
    ensures W.JsonType(c, def, Some(parent), indent) + t
         == W.OptIndent(c, indent + 1)
            + KeyText("type", [' '] + (W.JsonValue(Str(def.name)) + ([','] + (Gap(c, Item([], Int(0), Done)) + t))))
  {
    var i, sep, g := W.OptIndent(c, indent + 1), W.ItemSep(c), Gap(c, Item([], Int(0), Done));
    J.EscapePlain(def.name);
    assert sep == [','] + g;
    Assoc([','], g, t);
    TypeMember(i, def.name, sep, t);
  }

  lemma TypeMember(i: string, n: string, sep: string, t: string)
    requires J.Escape(n) == n
    ensures (i + ("\"type\": \"" + (n + ("\"" + sep)))) + t
         == i + KeyText("type", [' '] + (W.JsonValue(Str(n)) + (sep + t)))
  {
    var head := "\"type\": \"";
    Assoc(i, head + (n + ("\"" + sep)), t);
    Assoc(head, n + ("\"" + sep), t);
    Assoc(n, "\"" + sep, t);
    Assoc("\"", sep, t);
    J.EscapePlain("type");
    assert head == ['"'] + ("type" + (['"'] + ([':'] + ([' '] + ['"']))));
    TypeAssoc(n, sep + t);
  }

  lemma TypeAssoc(n: string, tail: string)
    requires J.Escape(n) == n && J.Escape("type") == "type"
    ensures (['"'] + ("type" + (['"'] + ([':'] + ([' '] + ['"']))))) + (n + ("\"" + tail))
         == KeyText("type", [' '] + (W.JsonValue(Str(n)) + tail))
  {
    var x := n + ("\"" + tail);
    Assoc(['"'], "type" + (['"'] + ([':'] + ([' '] + ['"']))), x);
    Assoc("type", ['"'] + ([':'] + ([' '] + ['"'])), x);
    Assoc(['"'], [':'] + ([' '] + ['"']), x);
    Assoc([':'], [' '] + ['"'], x);
    Assoc([' '], ['"'], x);
    Assoc(['"'], n + ['"'], tail);
    Assoc(n, ['"'], tail);
  }

  // ---------------------------------------------------------------- reading the tree

  function Reads(ok: bool, j: J.Json, rest: string): Option<(J.Json, string)> {
    if ok then Some((j, rest)) else None
  }

  function ReadsMembers(ok: bool, m: J.Members, rest: string): Option<(J.Members, string)> {
    if ok then Some((m, rest)) else None
  }

  function ReadsElements(ok: bool, e: J.Elements, rest: string): Option<(J.Elements, string)> {
    if ok then Some((e, rest)) else None
  }

  /** A text that closes an object or an array with `mark` after white space. */
  predicate Closes(t: string, mark: char, rest: string) {
    t != [] && !IsDigit(t[0]) && J.SkipWs(t) == [mark] + rest
  }

  lemma CloseCloses(c: bool, kind: Flag, indent: int, rest: string)
    requires !kind.Wrapper?
    ensures Closes(W.JsonClose(c, false, kind, indent) + rest, if kind.Array? then ']' else '}', rest)
  {
    IndentWs(indent);
    var mark := if kind.Array? then "]" else "}";
    var gap := if kind.Array? then "\n" else W.StartEnd(c);
    var i := if kind.Array? then W.Indent(indent) else W.OptIndent(c, indent);
    assert W.JsonClose(c, false, kind, indent) == gap + (i + mark);
    Assoc(gap, i + mark, rest);
    Assoc(i, mark, rest);
    J.SkipOver(gap, i + (mark + rest));
    J.SkipOver(i, mark + rest);
    assert J.SkipWs(mark + rest) == mark + rest;
  }

  // What follows an entry: the closing text or a comma.
  lemma FollowOk(c: bool, parent: SectionDef, indent: int, next: Forest, t: string, mark: char, rest: string)
    requires Closes(t, mark, rest)
    ensures var u := Contents(W.JsonPrinter(c), parent, false, indent, next, t);
            u != [] && !IsDigit(u[0])
  {
    if next != Done {
      LaterEntry(c, parent, indent, next, t);
    }
  }

  lemma GapWs(c: bool, f: Forest)
    ensures J.AllWs(Gap(c, f))
  {
  }

  lemma StartEndWs(c: bool)
    ensures J.AllWs(W.StartEnd(c))
  {
  }

  /** The first character of the contents of a section that is not empty. */
  lemma FirstChar(c: bool, parent: SectionDef, indent: int, w: string, f: Forest, t: string)
    requires f != Done && Shaped(parent, f) && J.AllWs(w)
    ensures J.Is(J.SkipWs(w + Contents(W.JsonPrinter(c), parent, true, indent, f, t)),
                 if parent.kind.Array? then '{' else '"')
  {
    IndentWs(indent);
    match f
    case Item(key, v, next) =>
      ItemEntry(c, parent, indent, key, v, next, t);
      SkipTwo(w, W.OptIndent(c, indent),
              KeyText(key, [' '] + (W.JsonValue(v) + Contents(W.JsonPrinter(c), parent, false, indent, next, t))));
    case Section(def, body, next) =>
      var rest := Contents(W.JsonPrinter(c), parent, false, indent, next, t);
      if parent.kind.Array? {
        SectionElement(c, parent, indent, def, body, next, t);
        SkipTwo(w, W.Indent(indent),
                ['{'] + (W.StartEnd(c) + (W.JsonType(c, def, Some(parent), indent) + Inside(c, def, indent, body, rest))));
      } else {
        SectionMember(c, parent, indent, def, body, next, t);
        SkipTwo(w, W.Indent(indent),
                KeyText(def.name, [' '] + (if def.kind.Array? then ['['] + ("\n" + Inside(c, def, indent, body, rest))
                                           else ['{'] + (W.StartEnd(c) + Inside(c, def, indent, body, rest)))));
      }
  }

  lemma SkipTwo(w: string, i: string, s: string)
    requires J.AllWs(w) && J.AllWs(i)
    ensures w + (i + s) == (w + i) + s && J.AllWs(w + i)
    ensures J.SkipWs(w + (i + s)) == J.SkipWs(s)
    ensures s != [] && !J.IsWs(s[0]) ==> J.SkipWs(s) == s
  {
    Assoc(w, i, s);
    JoinWs(w, i);
    J.SkipOver(w + i, s);
  }

  lemma BracketOpens(w: string, mark: char, s: string)
    requires J.AllWs(w) && !J.IsWs(mark)
    ensures J.SkipWs(w + ([mark] + s)) == [mark] + s && ([mark] + s)[1..] == s
  {
    J.SkipOver(w, [mark] + s);
    assert J.SkipWs([mark] + s) == [mark] + s;
    Cut([mark], s);
  }

  /** What ReadValue makes of what follows an opening brace, or an opening bracket. */
  function ObjectFrom(s: string): Option<(J.Json, string)> {
    var u := J.SkipWs(s);
    if J.Is(u, '}') then Some((J.JObject(J.NoMember), u[1..]))
    else
      var r := J.ReadMembers(s);
      if r.None? then None else Some((J.JObject(r.value.0), r.value.1))
  }

  function ArrayFrom(s: string): Option<(J.Json, string)> {
    var u := J.SkipWs(s);
    if J.Is(u, ']') then Some((J.JArray(J.NoElement), u[1..]))
    else
      var r := J.ReadElements(s);
      if r.None? then None else Some((J.JArray(r.value.0), r.value.1))
  }

  lemma ObjectOpens(w: string, s: string)
    requires J.AllWs(w)
    ensures J.ReadValue(w + (['{'] + s)) == ObjectFrom(s)
  {
    BracketOpens(w, '{', s);
  }

  lemma ArrayOpens(w: string, s: string)
    requires J.AllWs(w)
    ensures J.ReadValue(w + (['['] + s)) == ArrayFrom(s)
  {
    BracketOpens(w, '[', s);
  }

  /** The members of an open object or of the root read back, up to its closing brace, when and
      only when the typed elements inside are not empty. */
  lemma {:induction false} MembersRead(c: bool, parent: SectionDef, indent: int, w: string, f: Forest,
                                       t: string, rest: string)
    requires !parent.kind.Array? && !parent.id.PacketsAndFrames? && Shaped(parent, f) && f != Done
    requires J.AllWs(w) && Closes(t, '}', rest)
    ensures J.ReadMembers(w + Contents(W.JsonPrinter(c), parent, true, indent, f, t))
         == ReadsMembers(Good(parent, f), MembersOf(f), rest)
    decreases f, 0
  {
    IndentWs(indent);
    match f
    case Item(key, v, next) =>
      var u := Contents(W.JsonPrinter(c), parent, false, indent, next, t);
      FollowOk(c, parent, indent, next, t, '}', rest);
      ItemEntry(c, parent, indent, key, v, next, t);
      SkipTwo(w, W.OptIndent(c, indent), KeyText(key, [' '] + (W.JsonValue(v) + u)));
      KeyReads(w + W.OptIndent(c, indent), key, [' '] + (W.JsonValue(v) + u));
      ItemValueReads(v, u);
      if next == Done {
        AfterMemberIs(key, ValueJson(v), u, rest, true);
      } else {
        var more := Gap(c, next) + Contents(W.JsonPrinter(c), parent, true, indent, next, t);
        LaterEntry(c, parent, indent, next, t);
        AfterMemberIs(key, ValueJson(v), u, more, false);
        GapWs(c, next);
        MembersRead(c, parent, indent, Gap(c, next), next, t, rest);
      }
    case Section(def, body, next) =>
      var u := Contents(W.JsonPrinter(c), parent, false, indent, next, t);
      FollowOk(c, parent, indent, next, t, '}', rest);
      var inside := Inside(c, def, indent, body, u);
      var text := if def.kind.Array? then ['['] + ("\n" + inside) else ['{'] + (W.StartEnd(c) + inside);
      SectionMember(c, parent, indent, def, body, next, t);
      SkipTwo(w, W.Indent(indent), KeyText(def.name, [' '] + text));
      KeyReads(w + W.Indent(indent), def.name, [' '] + text);
      if def.kind.Array? {
        ArrayRead(c, def, indent, [' '], body, u);
      } else {
        ObjectRead(c, def, indent, [' '], body, u);
      }
      if Good(def, body) {
        if next == Done {
          AfterMemberIs(def.name, SectionJson(def, false, body), u, rest, true);
        } else {
          var more := Gap(c, next) + Contents(W.JsonPrinter(c), parent, true, indent, next, t);
          LaterEntry(c, parent, indent, next, t);
          AfterMemberIs(def.name, SectionJson(def, false, body), u, more, false);
          GapWs(c, next);
          MembersRead(c, parent, indent, Gap(c, next), next, t, rest);
        }
      }
  }

  /** An object without a type member. */
  lemma {:induction false} ObjectRead(c: bool, def: SectionDef, indent: int, w: string, body: Forest, u: string)
    requires def.kind.Object? && !def.id.PacketsAndFrames? && Shaped(def, body) && J.AllWs(w)
    ensures J.ReadValue(w + (['{'] + (W.StartEnd(c) + Inside(c, def, indent, body, u))))
         == Reads(Good(def, body), SectionJson(def, false, body), u)
    decreases body, 2
  {
    var t := W.JsonClose(c, false, def.kind, indent) + u;
    CloseCloses(c, def.kind, indent, u);
    BraceRead(c, def, indent, w, body, t, u);
  }

  /** A brace, white space, the contents and the text that closes them. */
  lemma {:induction false} BraceRead(c: bool, def: SectionDef, indent: int, w: string, body: Forest, t: string, u: string)
    requires !def.kind.Array? && !def.id.PacketsAndFrames? && Shaped(def, body) && J.AllWs(w) && Closes(t, '}', u)
    ensures J.ReadValue(w + (['{'] + (W.StartEnd(c) + Contents(W.JsonPrinter(c), def, true, indent + 1, body, t))))
         == Reads(Good(def, body), SectionJson(def, false, body), u)
    decreases body, 1
  {
    var inside := W.StartEnd(c) + Contents(W.JsonPrinter(c), def, true, indent + 1, body, t);
    StartEndWs(c);
    ObjectOpens(w, inside);
    if body == Done {
      J.SkipOver(W.StartEnd(c), t);
      Cut(['}'], u);
    } else {
      FirstChar(c, def, indent + 1, W.StartEnd(c), body, t);
      MembersRead(c, def, indent + 1, W.StartEnd(c), body, t, u);
    }
  }

  lemma {:induction false} ArrayRead(c: bool, def: SectionDef, indent: int, w: string, body: Forest, u: string)
    requires def.kind.Array? && Shaped(def, body) && J.AllWs(w)
    ensures J.ReadValue(w + (['['] + ("\n" + Inside(c, def, indent, body, u))))
         == Reads(Good(def, body), SectionJson(def, false, body), u)
    decreases body, 1
  {
    var t := W.JsonClose(c, false, def.kind, indent) + u;
    CloseCloses(c, def.kind, indent, u);
    var inside := "\n" + Inside(c, def, indent, body, u);
    ArrayOpens(w, inside);
    ArrayInside(c, def, indent + 1, body, t, u);
  }

  // What follows the opening bracket.
  lemma {:induction false} ArrayInside(c: bool, def: SectionDef, indent: int, body: Forest, t: string, u: string)
    requires def.kind.Array? && Shaped(def, body) && Closes(t, ']', u)
    ensures ArrayFrom("\n" + Contents(W.JsonPrinter(c), def, true, indent, body, t))
         == Reads(Good(def, body), SectionJson(def, false, body), u)
    decreases body, 0, 1
  {
    assert SectionJson(def, false, body) == J.JArray(ElementsOf(body, def.id.PacketsAndFrames?));
    if body == Done {
      J.SkipOver("\n", t);
      Cut([']'], u);
    } else {
      FirstChar(c, def, indent, "\n", body, t);
      ElementsRead(c, def, indent, "\n", body, t, u);
    }
  }

  /** The elements of an open array. */
  lemma {:induction false} ElementsRead(c: bool, parent: SectionDef, indent: int, w: string, f: Forest,
                                        t: string, rest: string)
    requires parent.kind.Array? && Shaped(parent, f) && f != Done
    requires J.AllWs(w) && Closes(t, ']', rest)
    ensures J.ReadElements(w + Contents(W.JsonPrinter(c), parent, true, indent, f, t))
         == ReadsElements(Good(parent, f), ElementsOf(f, parent.id.PacketsAndFrames?), rest)
    decreases f, 0, 0
  {
    IndentWs(indent);
    var typed := parent.id.PacketsAndFrames?;
    var Section(def, body, next) := f;
    var u := Contents(W.JsonPrinter(c), parent, false, indent, next, t);
    var text := ['{'] + (W.StartEnd(c) + (W.JsonType(c, def, Some(parent), indent) + Inside(c, def, indent, body, u)));
    SectionElement(c, parent, indent, def, body, next, t);
    SkipTwo(w, W.Indent(indent), text);
    if typed {
      TypedRead(c, parent, def, indent, w + W.Indent(indent), body, u);
    } else {
      assert W.JsonType(c, def, Some(parent), indent) == [];
      assert [] + Inside(c, def, indent, body, u) == Inside(c, def, indent, body, u);
      ObjectRead(c, def, indent, w + W.Indent(indent), body, u);
    }
    if next == Done {
      AfterElementIs(SectionJson(def, typed, body), u, rest, true);
    } else {
      var more := Gap(c, next) + Contents(W.JsonPrinter(c), parent, true, indent, next, t);
      LaterEntry(c, parent, indent, next, t);
      AfterElementIs(SectionJson(def, typed, body), u, more, false);
      GapWs(c, next);
      ElementsRead(c, parent, indent, Gap(c, next), next, t, rest);
    }
    ElementsUnfold(w + Contents(W.JsonPrinter(c), parent, true, indent, f, t));
  }

  /** What ReadElements makes of a value. */
  function AfterElement(v: Option<(J.Json, string)>): Option<(J.Elements, string)> {
    if v.None? then None
    else
      var w := J.SkipWs(v.value.1);
      if J.Is(w, ']') then Some((J.Element(v.value.0, J.NoElement), w[1..]))
      else if J.Is(w, ',') then
        var more := J.ReadElements(w[1..]);
        if more.None? then None else Some((J.Element(v.value.0, more.value.0), more.value.1))
      else None
  }

  lemma ElementsUnfold(s: string)
    ensures J.ReadElements(s) == AfterElement(J.ReadValue(s))
  {
  }

  lemma AfterElementIs(v: J.Json, t: string, more: string, last: bool)
    requires if last then J.SkipWs(t) == [']'] + more else t == [','] + more
    ensures AfterElement(Some((v, t))) ==
            if last then Some((J.Element(v, J.NoElement), more))
            else if J.ReadElements(more).None? then None
            else Some((J.Element(v, J.ReadElements(more).value.0), J.ReadElements(more).value.1))
  {
    Cut([']'], more);
    Cut([','], more);
  }

  /** An element of packets_and_frames: the comma after its type member is fatal when the element
      shows nothing else. */
  lemma {:induction false} TypedRead(c: bool, parent: SectionDef, def: SectionDef, indent: int, w: string,
                                     body: Forest, u: string)
    requires parent.id.PacketsAndFrames? && Plain(def.name) && def.kind.Object? && !def.id.PacketsAndFrames?
    requires Shaped(def, body) && J.AllWs(w)
    ensures J.ReadValue(w + (['{'] + (W.StartEnd(c) + (W.JsonType(c, def, Some(parent), indent)
                                                       + Inside(c, def, indent, body, u)))))
         == Reads(body != Done && Good(def, body), SectionJson(def, true, body), u)
    decreases body, 2
  {
    var b := Inside(c, def, indent, body, u);
    var gap := Gap(c, Item([], Int(0), Done));
    TypeText(c, def, parent, indent, b);
    GapWs(c, Item([], Int(0), Done));
    TypedBrace(c, def, indent, w, b);
    TypedRest(c, def, indent, gap, body, u);
    AfterMemberIs("type", J.JString(def.name), [','] + (gap + b), gap + b, false);
  }

  // The brace and the type member; the reader goes on after the comma.
  lemma TypedBrace(c: bool, def: SectionDef, indent: int, w: string, b: string)
    requires J.AllWs(w)
    ensures var gap := Gap(c, Item([], Int(0), Done));
            var val := [' '] + (W.JsonValue(Str(def.name)) + ([','] + (gap + b)));
            var r := AfterMember("type", Some((J.JString(def.name), [','] + (gap + b))));
            J.ReadValue(w + (['{'] + (W.StartEnd(c) + (W.OptIndent(c, indent + 1) + KeyText("type", val)))))
            == if r.None? then None else Some((J.JObject(r.value.0), r.value.1))
  {
    var gap := Gap(c, Item([], Int(0), Done));
    var val := [' '] + (W.JsonValue(Str(def.name)) + ([','] + (gap + b)));
    var i := W.OptIndent(c, indent + 1);
    IndentWs(indent + 1);
    StartEndWs(c);
    var inside := W.StartEnd(c) + (i + KeyText("type", val));
    ObjectOpens(w, inside);
    SkipTwo(W.StartEnd(c), i, KeyText("type", val));
    KeyReads(W.StartEnd(c) + i, "type", val);
    ItemValueReads(Str(def.name), [','] + (gap + b));
  }

  // The members after the type member.
  lemma {:induction false} TypedRest(c: bool, def: SectionDef, indent: int, gap: string, body: Forest, u: string)
    requires def.kind.Object? && !def.id.PacketsAndFrames? && Shaped(def, body) && J.AllWs(gap)
    ensures J.ReadMembers(gap + Inside(c, def, indent, body, u))
         == ReadsMembers(body != Done && Good(def, body), MembersOf(body), u)
    decreases body, 1
  {
    var t := W.JsonClose(c, false, def.kind, indent) + u;
    CloseCloses(c, def.kind, indent, u);
    if body == Done {
      J.SkipOver(gap, t);
    } else {
      MembersRead(c, def, indent + 1, gap, body, t, u);
    }
  }

  // ---------------------------------------------------------------- the result

  /** The whole JSON output is well formed, and reads back as the section tree with its original
      keys and strings, if and only if every element of packets_and_frames shows an entry. */
  lemma OutputReadsBackIff(c: bool, root: SectionDef, f: Forest)
    requires root.kind.Wrapper? && !root.id.PacketsAndFrames? && Shaped(root, f)
    ensures var text := W.Output(W.JsonPrinter(c), root, f).out;
            J.ReadText(text) == if Good(root, f) then Some(J.JObject(MembersOf(f))) else None
  {
    MachineOutput(c, root, f);
    RootCloses();
    RootRead(c, root, f, "\n}\n");
  }

  lemma RootCloses()
    ensures Closes("\n}\n", '}', "\n")
  {
    assert "\n}\n" == "\n" + ("}" + "\n");
    J.SkipOver("\n", "}" + "\n");
  }

  lemma RootRead(c: bool, root: SectionDef, f: Forest, t: string)
    requires root.kind.Wrapper? && !root.id.PacketsAndFrames? && Shaped(root, f) && Closes(t, '}', "\n")
    ensures J.ReadText("{\n" + Contents(W.JsonPrinter(c), root, true, 1, f, t))
         == if Good(root, f) then Some(J.JObject(MembersOf(f))) else None
  {
    var contents := Contents(W.JsonPrinter(c), root, true, 1, f, t);
    var s := "{\n" + contents;
    assert s == ['{'] + ("\n" + contents);
    Cut(['{'], "\n" + contents);
    assert J.SkipWs(s) == s;
    assert J.SkipWs("\n") == [];
    if f == Done {
      J.SkipOver("\n", t);
      Cut(['}'], "\n");
    } else {
      FirstChar(c, root, 1, "\n", f, t);
      MembersRead(c, root, 1, "\n", f, t, "\n");
    }
  }

  /** For output that follows ffprobe's section structure under its root, whichever entries are
      hidden. */
  lemma FfprobeOutputReadsBackIff(c: bool, root: SectionDef, f: Forest, shows: (SectionId, string) -> bool)
    requires root.id.Root? && root.kind == Kind(Root) && Follows(Root, f)
    ensures var shown := W.Visible(shows, Root, f);
            var text := W.Output(W.JsonPrinter(c), root, shown).out;
            J.ReadText(text) == if Good(root, shown) then Some(J.JObject(MembersOf(shown))) else None
  {
    W.VisibleFollows(shows, Root, f);
    FollowsShaped(root, W.Visible(shows, Root, f));
    OutputReadsBackIff(c, root, W.Visible(shows, Root, f));
  }

  /** A packet that shows no entry in packets_and_frames: the output does not read at all. */
  lemma EmptyElementIsNotRead(c: bool)
    ensures var f := Section(Def(PacketsAndFrames), Section(Def(Packet), Done, Done), Done);
            Follows(Root, f) && J.ReadText(W.Output(W.JsonPrinter(c), Def(Root), f).out).None?
  {
    var f := Section(Def(PacketsAndFrames), Section(Def(Packet), Done, Done), Done);
    FollowsShaped(Def(Root), f);
    OutputReadsBackIff(c, Def(Root), f);
  }

  /** The writer itself: for contents that follow the section structure, whichever entries are hidden,
      the levels never run out and what it prints reads back. */
  method PrintDocument(c: bool, shows: (SectionId, string) -> bool, root: SectionDef, f: Forest) returns (text: string)
    requires root.id.Root? && root.kind == Kind(Root) && Follows(Root, f)
    ensures var shown := W.Visible(shows, Root, f);
            J.ReadText(text) == if Good(root, shown) then Some(J.JObject(MembersOf(shown))) else None
  {
    var w := new W.WriterContext(W.JsonFormat(c), shows);
    DepthBounded(Root, f);
    w.PrintSectionHeader(root);
    assert w.Stack()[0].def == root by {
      W.HeaderSections(W.JsonPrinter(c), W.START, root);
    }
    w.PrintForest(f);
    w.PrintSectionFooter();
    text := w.out;
    FfprobeOutputReadsBackIff(c, root, f, shows);
  }
}
