/** The lines of ffprobe's flat writer, read back: every line splits at its first equals sign into the
    path of the section with the key, and a number or a quoted text. */
module FlatLines {
  import opened Text
  import opened Decimal
  import opened Sections
  import opened Wrappers
  import E = Escapers
  import W = Writer
  import opened FlatWriter

  // ---------------------------------------------------------------- the reader

  /** The first position of `c`, the length when there is none. */
  function Find(s: string, c: char): (n: nat)
    ensures n <= |s| && (n < |s| ==> s[n] == c)
  {
    if s == [] || s[0] == c then 0 else 1 + Find(s[1..], c)
  }

  function ReadInt(s: string): Option<int> {
    if s == [] then None
    else
      var digits := if s[0] == '-' then s[1..] else s;
      var (n, rest) := ReadDigits(digits, 0);
      var value: int := if s[0] == '-' then 0 - n else n;
      if digits == [] || rest != [] then None else Some(value)
  }

  function ReadValue(s: string): Option<Value> {
    if |s| >= 2 && s[0] == '"' && s[|s| - 1] == '"' then Some(Str(E.FlatUnescape(s[1..|s| - 1])))
    else
      var n := ReadInt(s);
      if n.None? then None else Some(Int(n.value))
  }

  /** A line without its end. */
  function ReadLine(s: string): Option<(string, Value)> {
    var n := Find(s, '=');
    if n == |s| then None
    else
      var v := ReadValue(s[n + 1..]);
      if v.None? then None else Some((s[..n], v.value))
  }

  function ReadLines(s: string): Option<seq<(string, Value)>>
    decreases |s|
  {
    if s == [] then Some([])
    else
      var n := Find(s, '\n');
      if n == |s| then None
      else
        var e, more := ReadLine(s[..n]), ReadLines(s[n + 1..]);
        if e.None? || more.None? then None else Some([e.value] + more.value)
  }

  // ---------------------------------------------------------------- one line

  predicate Free(s: string) {
    '=' !in s && '\n' !in s
  }

  lemma {:induction false} FindIs(a: string, c: char, b: string)
    requires c !in a
    ensures Find(a + ([c] + b), c) == |a|
    decreases |a|
  {
    if a == [] {
      assert a + ([c] + b) == [c] + b;
    } else {
      TailOfJoin(a, [c] + b);
      FindIs(a[1..], c, b);
    }
  }

  /** The key of a line: of texts it is escaped, of numbers it is not. */
  function Shown(key: string, v: Value): string {
    if v.Str? then E.FlatKey(key) else key
  }

  // What follows the equals sign, without the end of the line.
  function ValueText(v: Value): string {
    match v
    case Int(n) => IntText(n)
    case Str(s) => ['"'] + (E.FlatEscape(s) + ['"'])
  }

  lemma ItemIs(pbuf: string, key: string, v: Value)
    ensures W.FlatItem(pbuf, key, v) == (pbuf + Shown(key, v)) + (['='] + ValueText(v)) + ['\n']
  {
    var k := Shown(key, v);
    match v
    case Int(n) =>
      assert W.FlatItem(pbuf, key, v) == pbuf + (k + (['='] + (IntText(n) + ['\n'])));
    case Str(s) =>
      assert W.FlatItem(pbuf, key, v) == pbuf + (k + (['='] + (['"'] + (E.FlatEscape(s) + (['"'] + ['\n'])))));
  }

  lemma ValueReads(v: Value)
    ensures ReadValue(ValueText(v)) == Some(v) && '\n' !in ValueText(v)
  {
    match v
    case Int(n) =>
      IntReads(n);
    case Str(s) =>
      E.FlatReadsBack(s);
      var t := ValueText(v);
      assert t[1..|t| - 1] == E.FlatEscape(s);
  }

  lemma IntReads(n: int)
    ensures ReadInt(IntText(n)) == Some(n) && IntText(n)[0] != '"' && '\n' !in IntText(n)
  {
    var m: nat := if n < 0 then -n else n;
    ReadNatText(m, []);
    assert NatText(m) + [] == NatText(m);
    if n < 0 {
      assert IntText(n)[1..] == NatText(m);
    }
  }

  lemma LineReads(key: string, v: Value)
    requires Free(key)
    ensures var line := key + (['='] + ValueText(v));
            ReadLine(line) == Some((key, v)) && '\n' !in line
  {
    var line := key + (['='] + ValueText(v));
    FindIs(key, '=', ValueText(v));
    ValueReads(v);
    assert line[..|key|] == key && line[|key| + 1..] == ValueText(v);
  }

  /** The lines of `text` read as `entries`, with the lines of `t` to follow. */
  predicate Reads(text: string, entries: seq<(string, Value)>, t: string) {
    ReadLines(t).Some? && ReadLines(text + t) == Some(entries + ReadLines(t).value)
  }

  lemma ReadsBoth(a: string, x: seq<(string, Value)>, b: string, y: seq<(string, Value)>, t: string)
    requires Reads(b, y, t) && Reads(a, x, b + t)
    ensures Reads(a + b, x + y, t)
  {
    Assoc(a, b, t);
    assert x + (y + ReadLines(t).value) == (x + y) + ReadLines(t).value;
  }

  lemma NothingReads(t: string)
    requires ReadLines(t).Some?
    ensures Reads([], [], t)
  {
    var none: string, lines := [], ReadLines(t).value;
    assert none + t == t;
    assert [] + lines == lines;
  }

  /** One line, with the lines that follow. */
  lemma ItemReads(pbuf: string, key: string, v: Value, t: string)
    requires Free(pbuf) && Free(Shown(key, v)) && ReadLines(t).Some?
    ensures Reads(W.FlatItem(pbuf, key, v), [(pbuf + Shown(key, v), v)], t)
  {
    var line := (pbuf + Shown(key, v)) + (['='] + ValueText(v));
    LineReads(pbuf + Shown(key, v), v);
    ItemIs(pbuf, key, v);
    Assoc(line, ['\n'], t);
    FindIs(line, '\n', t);
    var s := line + (['\n'] + t);
    assert s[..|line|] == line && s[|line| + 1..] == t;
  }

  // ---------------------------------------------------------------- the whole output

  /** The entries of the tree with the path of their section, in order. */
  function Entries(p: W.Printer, l: Place, f: Forest): seq<(string, Value)>
    requires p.path.Some?
    decreases f
  {
    match f
    case Done => []
    case Item(key, v, next) => [(l.level.pbuf + Shown(key, v), v)] + Entries(p, AfterItem(l), next)
    case Section(def, body, next) => Entries(p, Into(p, l, def), body) + Entries(p, AfterSection(l, def), next)
  }

  /** Keys of numbers and names of sections hold neither an equals sign nor a line end. */
  predicate Clean(f: Forest) {
    match f
    case Done => true
    case Item(key, v, next) => Free(Shown(key, v)) && Clean(next)
    case Section(def, body, next) => Free(def.name) && Clean(body) && Clean(next)
  }

  lemma PathFree(sep: char, h: bool, l: Place, def: SectionDef)
    requires Free([sep]) && Free(l.level.pbuf) && Free(def.name)
    ensures Free(Into(W.FlatPrinter(sep, h), l, def).level.pbuf)
  {
    assert [sep][0] == sep;
    assert forall n: nat :: Free(NatText(n));
  }

  lemma {:induction false} LinesRead(sep: char, h: bool, l: Place, f: Forest, t: string)
    requires Free([sep]) && Free(l.level.pbuf) && Clean(f) && ReadLines(t).Some?
    ensures Reads(Lines(W.FlatPrinter(sep, h), l, f), Entries(W.FlatPrinter(sep, h), l, f), t)
    decreases f
  {
    var p := W.FlatPrinter(sep, h);
    match f
    case Done =>
      NothingReads(t);
    case Item(key, v, next) =>
      LinesRead(sep, h, AfterItem(l), next, t);
      var rest := Lines(p, AfterItem(l), next);
      ItemReads(l.level.pbuf, key, v, rest + t);
      ReadsBoth(W.FlatItem(l.level.pbuf, key, v), [(l.level.pbuf + Shown(key, v), v)],
                rest, Entries(p, AfterItem(l), next), t);
    case Section(def, body, next) =>
      var inner, after := Into(p, l, def), AfterSection(l, def);
      PathFree(sep, h, l, def);
      LinesRead(sep, h, after, next, t);
      LinesRead(sep, h, inner, body, Lines(p, after, next) + t);
      ReadsBoth(Lines(p, inner, body), Entries(p, inner, body), Lines(p, after, next), Entries(p, after, next), t);
  }

  /** The flat output reads back, line by line, as the entries of the tree in order, each with its value
      and under the path of its section; for keys of numbers and a separator without an equals sign. */
  lemma OutputReadsBack(sep: char, h: bool, root: SectionDef, f: Forest)
    requires root.kind.Wrapper? && !root.id.PacketsAndFrames? && Named(sep, root, f) && Clean(f) && Free([sep])
    ensures ReadLines(W.Output(W.FlatPrinter(sep, h), root, f).out)
         == Some(Entries(W.FlatPrinter(sep, h), Place(W.Level(root, 0, []), 0, 0), f))
  {
    var l := Place(W.Level(root, 0, []), 0, 0);
    var lines := Lines(W.FlatPrinter(sep, h), l, f);
    OutputRuns(sep, h, root, f);
    LinesRead(sep, h, l, f, []);
    assert lines + [] == lines;
    assert Entries(W.FlatPrinter(sep, h), l, f) + [] == Entries(W.FlatPrinter(sep, h), l, f);
  }

  // ---------------------------------------------------------------- the numbers in the paths

  /** How many of the first sections of a forest are packets, or are not. */
  function Opened(f: Forest, packets: bool): nat {
    match f
    case Done => 0
    case Item(_, _, next) => Opened(next, packets)
    case Section(def, _, next) => (if def.id.Packet? == packets then 1 else 0) + Opened(next, packets)
  }

  lemma {:induction false} PlaceAfter(l: Place, f: Forest)
    ensures AtEnd(l, f).level.def == l.level.def && AtEnd(l, f).level.pbuf == l.level.pbuf
    ensures l.level.def.id.PacketsAndFrames? ==>
              AtEnd(l, f).packets == l.packets + Opened(f, true) && AtEnd(l, f).frames == l.frames + Opened(f, false)
    ensures OnlySections(f) ==>
              AtEnd(l, f).level.nbItem == l.level.nbItem + Opened(f, true) + Opened(f, false)
    decreases f
  {
    match f
    case Done =>
    case Item(_, _, next) => PlaceAfter(AfterItem(l), next);
    case Section(def, _, next) => PlaceAfter(AfterSection(l, def), next);
  }

  predicate OnlySections(f: Forest) {
    f.Done? || (f.Section? && OnlySections(f.next))
  }

  /** Where a section is told apart from its siblings in an array: its path is that of the array, its name
      and its number, which counts the elements before it from 0; among packets and frames it counts
      the packets, or the others, before it. In any other section there is no number. Paths that are
      not hierarchical leave out arrays. */
  lemma PathOfChild(sep: char, h: bool, outer: Place, before: Forest, def: SectionDef)
    requires outer.level.nbItem == 0 && outer.packets == 0 && outer.frames == 0
    requires outer.level.def.kind.Array? ==> OnlySections(before)
    ensures var parent := outer.level.def;
            var n := if parent.id.PacketsAndFrames? then Opened(before, def.id.Packet?)
                     else Opened(before, true) + Opened(before, false);
            Into(W.FlatPrinter(sep, h), AtEnd(outer, before), def).level.pbuf
            == outer.level.pbuf
               + if h || def.kind.Object? then
                   def.name + ([sep] + if parent.kind.Array? then NatText(n) + [sep] else [])
                 else []
  {
    PlaceAfter(outer, before);
  }
}
