/** The key prefixes of ffprobe's flat writer. The stack machine is first shown to leave in its print
    buffers, and to put before its items, the path a recursion over the section tree gives; then no
    two of those paths are the same. */
module FlatWriter {
  import opened Text
  import opened Decimal
  import opened Sections
  import opened Wrappers
  import Csv = CsvWriter
  import W = Writer

  // ---------------------------------------------------------------- paths by recursion

  /** Where the output stands in an open section: its level and, inside packets_and_frames, how many
      packets and how many other elements came before. */
  datatype Place = Place(level: W.Level, packets: nat, frames: nat)

  /** The number a child would get from the counters of packets_and_frames. */
  function Number(l: Place, def: SectionDef): nat {
    if !l.level.def.id.PacketsAndFrames? then 0 else if def.id.Packet? then l.packets else l.frames
  }

  function Into(p: W.Printer, l: Place, def: SectionDef): Place
    requires p.path.Some?
  {
    Place(W.Level(def, 0, p.path.value(def, l.level, Number(l, def))), 0, 0)
  }

  function AfterItem(l: Place): Place {
    l.(level := l.level.(nbItem := l.level.nbItem + 1))
  }

  function AfterSection(l: Place, def: SectionDef): Place {
    var l' := AfterItem(l);
    if !l.level.def.id.PacketsAndFrames? then l'
    else if def.id.Packet? then l'.(packets := l.packets + 1)
    else l'.(frames := l.frames + 1)
  }

  function AtEnd(l: Place, f: Forest): Place
    decreases f
  {
    match f
    case Done => l
    case Item(_, _, next) => AtEnd(AfterItem(l), next)
    case Section(def, _, next) => AtEnd(AfterSection(l, def), next)
  }

  /** The paths of the sections opened in an open section, in the order they are opened. */
  function Paths(p: W.Printer, l: Place, f: Forest): seq<string>
    requires p.path.Some?
    decreases f
  {
    match f
    case Done => []
    case Item(_, _, next) => Paths(p, AfterItem(l), next)
    case Section(def, body, next) =>
      [Into(p, l, def).level.pbuf] + (Paths(p, Into(p, l, def), body) + Paths(p, AfterSection(l, def), next))
  }

  /** The lines: every item with the path of its section. */
  function Lines(p: W.Printer, l: Place, f: Forest): string
    requires p.path.Some?
    decreases f
  {
    match f
    case Done => []
    case Item(key, v, next) => W.FlatItem(l.level.pbuf, key, v) + Lines(p, AfterItem(l), next)
    case Section(def, body, next) => Lines(p, Into(p, l, def), body) + Lines(p, AfterSection(l, def), next)
  }

  // ---------------------------------------------------------------- the shape of the sections

  /** No packets_and_frames section in a forest. */
  predicate Uncounted(f: Forest) {
    match f
    case Done => true
    case Item(_, _, next) => Uncounted(next)
    case Section(def, body, next) => !def.id.PacketsAndFrames? && Uncounted(body) && Uncounted(next)
  }

  /** The separator is in no section name, elements of packets_and_frames are packets exactly if they
      are called so, and such sections are arrays and not nested. */
  predicate Named(sep: char, parent: SectionDef, f: Forest)
    decreases f
  {
    match f
    case Done => true
    case Item(_, _, next) => Named(sep, parent, next)
    case Section(def, body, next) =>
      && sep !in def.name
      && (parent.id.PacketsAndFrames? ==> (def.id.Packet? <==> def.name == "packet") && Uncounted(Section(def, body, Done)))
      && (def.id.PacketsAndFrames? ==> def.kind.Array?)
      && Named(sep, def, body) && Named(sep, parent, next)
  }

  function Names(f: Forest): set<string> {
    match f
    case Done => {}
    case Item(_, _, next) => Names(next)
    case Section(def, _, next) => {def.name} + Names(next)
  }

  /** A section that is not an array opens each child name at most once. */
  predicate OpenedOnce(parent: SectionDef, f: Forest)
    decreases f
  {
    match f
    case Done => true
    case Item(_, _, next) => OpenedOnce(parent, next)
    case Section(def, body, next) =>
      (!parent.kind.Array? ==> def.name !in Names(next)) && OpenedOnce(def, body) && OpenedOnce(parent, next)
  }

  // ---------------------------------------------------------------- the machine

  /** The machine stands at a place, with `below` the levels under the open section. */
  predicate At(m: W.Machine, below: seq<W.Level>, l: Place) {
    && m.stack == below + [l.level]
    && (l.level.def.id.PacketsAndFrames? ==> m.packets == l.packets && m.frames == l.frames)
  }

  /** Counters untouched. */
  predicate SameCounters(m: W.Machine, m': W.Machine) {
    m'.packets == m.packets && m'.frames == m.frames
  }

  lemma HeaderIs(sep: char, h: bool, m: W.Machine, below: seq<W.Level>, l: Place, def: SectionDef)
    requires At(m, below, l) && (def.id.PacketsAndFrames? ==> !l.level.def.id.PacketsAndFrames?)
    ensures var p := W.FlatPrinter(sep, h);
            var m' := W.Header(p, m, def);
            && At(m', below + [l.level], Into(p, l, def))
            && m'.prefixes == m.prefixes + [Into(p, l, def).level.pbuf] && m'.out == m.out
            && (!def.id.PacketsAndFrames? ==> SameCounters(m, m'))
  {
    var m1 := W.Push(m, def);
    assert m1.stack == m.stack + [W.Level(def, 0, [])] && W.Parent(m1) == Some(l.level);
    assert m.out + [] == m.out;
  }

  lemma EntryIs(sep: char, h: bool, m: W.Machine, below: seq<W.Level>, l: Place, key: string, v: Value)
    requires At(m, below, l)
    ensures var m' := W.Entry(W.FlatPrinter(sep, h), m, key, v);
            && At(m', below, AfterItem(l)) && SameCounters(m, m')
            && m'.prefixes == m.prefixes && m'.out == m.out + W.FlatItem(l.level.pbuf, key, v)
  {
  }

  lemma FooterIs(sep: char, h: bool, m: W.Machine, below: seq<W.Level>, l: Place, inner: W.Level)
    requires m.stack == below + [l.level] + [inner]
    requires l.level.def.id.PacketsAndFrames? ==> m.packets == l.packets && m.frames == l.frames
    ensures var m' := W.Footer(W.FlatPrinter(sep, h), m);
            && At(m', below, AfterSection(l, inner.def)) && m'.prefixes == m.prefixes && m'.out == m.out
            && (!l.level.def.id.PacketsAndFrames? ==> SameCounters(m, m'))
  {
    assert W.Count(m).stack == below + [AfterItem(l).level] + [inner];
    assert m.out + [] == m.out;
  }

  lemma AtEndKeeps(l: Place, f: Forest)
    ensures AtEnd(l, f).level.def == l.level.def && AtEnd(l, f).level.pbuf == l.level.pbuf
    decreases f
  {
  }

  /** What a run of the machine comes to, from `m` at `l` to `m'`. */
  ghost predicate Ran(p: W.Printer, m: W.Machine, m': W.Machine, below: seq<W.Level>, l: Place, f: Forest)
    requires p.path.Some?
  {
    && At(m', below, AtEnd(l, f))
    && m'.prefixes == m.prefixes + Paths(p, l, f)
    && m'.out == m.out + Lines(p, l, f)
    && (!l.level.def.id.PacketsAndFrames? && Uncounted(f) ==> SameCounters(m, m'))
  }

  /** The machine leaves the paths of the recursion in its print buffers, prints its lines, and has the
      levels it had. */
  lemma {:induction false} MachineRuns(sep: char, h: bool, m: W.Machine, below: seq<W.Level>, l: Place, f: Forest)
    requires At(m, below, l) && Named(sep, l.level.def, f)
    ensures Ran(W.FlatPrinter(sep, h), m, W.Run(W.FlatPrinter(sep, h), m, f), below, l, f)
    decreases f, 1
  {
    match f
    case Done =>
    case Item(key, v, next) =>
      var m1 := W.Entry(W.FlatPrinter(sep, h), m, key, v);
      EntryIs(sep, h, m, below, l, key, v);
      MachineRuns(sep, h, m1, below, AfterItem(l), next);
      Assoc(m.out, W.FlatItem(l.level.pbuf, key, v), Lines(W.FlatPrinter(sep, h), AfterItem(l), next));
    case Section(def, body, next) =>
      SectionRuns(sep, h, m, below, l, def, body, next);
  }

  lemma {:induction false} SectionRuns(sep: char, h: bool, m: W.Machine, below: seq<W.Level>, l: Place, def: SectionDef,
                                       body: Forest, next: Forest)
    requires At(m, below, l) && Named(sep, l.level.def, Section(def, body, next))
    ensures var f := Section(def, body, next);
            Ran(W.FlatPrinter(sep, h), m, W.Run(W.FlatPrinter(sep, h), m, f), below, l, f)
    decreases Section(def, body, next), 0
  {
    var p := W.FlatPrinter(sep, h);
    var inner := Into(p, l, def);
    var m1 := W.Header(p, m, def);
    var m2 := W.Run(p, m1, body);
    var m3 := W.Footer(p, m2);
    HeaderIs(sep, h, m, below, l, def);
    MachineRuns(sep, h, m1, below + [l.level], inner, body);
    AtEndKeeps(inner, body);
    FooterIs(sep, h, m2, below, l, AtEnd(inner, body).level);
    MachineRuns(sep, h, m3, below, AfterSection(l, def), next);
    SectionJoins(m, m1, m2, m3, W.Run(p, m3, next), inner.level.pbuf, Paths(p, inner, body),
                 Paths(p, AfterSection(l, def), next), Lines(p, inner, body), Lines(p, AfterSection(l, def), next));
  }

  lemma SectionJoins(m: W.Machine, m1: W.Machine, m2: W.Machine, m3: W.Machine, m4: W.Machine, path: string,
                     inside: seq<string>, rest: seq<string>, lines: string, more: string)
    requires m1.prefixes == m.prefixes + [path] && m1.out == m.out
    requires m2.prefixes == m1.prefixes + inside && m2.out == m1.out + lines
    requires m3.prefixes == m2.prefixes && m3.out == m2.out
    requires m4.prefixes == m3.prefixes + rest && m4.out == m3.out + more
    ensures m4.prefixes == m.prefixes + ([path] + (inside + rest)) && m4.out == m.out + (lines + more)
  {
    Assoc(m.out, lines, more);
  }

  // ---------------------------------------------------------------- components

  /** What a hierarchical path adds for a child. */
  function Component(sep: char, l: Place, def: SectionDef): string {
    W.FlatComponent(sep, true, def, l.level.def, Number(l, def), l.level.nbItem)
  }

  /** The number in the component of a child of an array. */
  function Index(l: Place, def: SectionDef): nat {
    if l.level.def.id.PacketsAndFrames? then Number(l, def) else l.level.nbItem
  }

  predicate Apart(a: string, b: string) {
    !(a <= b) && !(b <= a)
  }

  lemma TokenPrefix(sep: char, a: string, b: string, x: string, y: string)
    requires sep !in a && sep !in b && a + ([sep] + x) <= b + ([sep] + y)
    ensures a == b && x <= y
  {
    var s, t := a + ([sep] + x), b + ([sep] + y);
    assert forall i :: 0 <= i < |a| ==> t[i] == s[i] == a[i] != sep;
    assert forall i :: 0 <= i < |b| ==> t[i] == b[i] != sep;
    assert t[|a|] == s[|a|] == sep && t[|b|] == sep;
    assert a == s[..|a|] == t[..|a|] == b;
    assert x == s[|a| + 1..] && y == t[|a| + 1..];
  }

  lemma DigitsOnly(sep: char, n: nat)
    requires !IsDigit(sep)
    ensures sep !in NatText(n)
  {
  }

  /** Two children whose names or numbers differ. */
  predicate Differ(l: Place, def: SectionDef, l2: Place, def2: SectionDef) {
    def.name != def2.name || (l.level.def.kind.Array? && Index(l, def) != Index(l2, def2))
  }

  lemma ComponentPrefix(sep: char, l: Place, def: SectionDef, l2: Place, def2: SectionDef)
    requires l.level.def == l2.level.def && sep !in def.name && sep !in def2.name && !IsDigit(sep)
    requires Component(sep, l, def) <= Component(sep, l2, def2)
    ensures !Differ(l, def, l2, def2)
  {
    var parent := l.level.def;
    var n, n2 := NatText(Index(l, def)), NatText(Index(l2, def2));
    var x := if parent.kind.Array? then n + [sep] else [];
    var y := if parent.kind.Array? then n2 + [sep] else [];
    TokenPrefix(sep, def.name, def2.name, x, y);
    if parent.kind.Array? {
      DigitsOnly(sep, Index(l, def));
      DigitsOnly(sep, Index(l2, def2));
      assert [sep] + [] == [sep];
      TokenPrefix(sep, n, n2, [], []);
      NatTextInjective(Index(l, def), Index(l2, def2));
    }
  }

  lemma PrefixesCompare(a: string, b: string, x: string)
    requires a <= x && b <= x
    ensures a <= b || b <= a
  {
    if |a| <= |b| {
      assert a == x[..|a|] == b[..|a|];
    } else {
      assert b == x[..|b|] == a[..|b|];
    }
  }

  lemma PrefixTransitive(a: string, b: string, c: string)
    requires a <= b && b <= c
    ensures a <= c
  {
    assert a == b[..|a|] == c[..|a|];
  }

  lemma PrefixCancel(p: string, a: string, b: string)
    ensures p + a <= p + b <==> a <= b
  {
    if p + a <= p + b {
      assert forall i :: 0 <= i < |a| ==> a[i] == (p + a)[|p| + i] == (p + b)[|p| + i];
    }
  }

  function Path(sep: char, l: Place, def: SectionDef): string {
    l.level.pbuf + Component(sep, l, def)
  }

  lemma ChildrenApart(sep: char, l: Place, def: SectionDef, l2: Place, def2: SectionDef)
    requires l.level.def == l2.level.def && l.level.pbuf == l2.level.pbuf
    requires sep !in def.name && sep !in def2.name && !IsDigit(sep) && Differ(l, def, l2, def2)
    ensures Apart(Path(sep, l, def), Path(sep, l2, def2))
  {
    PrefixCancel(l.level.pbuf, Component(sep, l, def), Component(sep, l2, def2));
    PrefixCancel(l.level.pbuf, Component(sep, l2, def2), Component(sep, l, def));
    if Component(sep, l, def) <= Component(sep, l2, def2) {
      ComponentPrefix(sep, l, def, l2, def2);
    }
    if Component(sep, l2, def2) <= Component(sep, l, def) {
      ComponentPrefix(sep, l2, def2, l, def);
    }
  }

  // ---------------------------------------------------------------- no two paths are the same

  function P(sep: char): W.Printer {
    W.FlatPrinter(sep, true)
  }

  /** Every path in an open section properly extends the path of that section. */
  lemma {:induction false} PathsExtend(sep: char, l: Place, f: Forest, i: nat)
    requires i < |Paths(P(sep), l, f)|
    ensures l.level.pbuf < Paths(P(sep), l, f)[i]
    decreases f
  {
    match f
    case Item(_, _, next) => PathsExtend(sep, AfterItem(l), next, i);
    case Section(def, body, next) =>
      var inner := Into(P(sep), l, def);
      var n := |Paths(P(sep), inner, body)|;
      assert inner.level.pbuf == Path(sep, l, def) && l.level.pbuf < inner.level.pbuf;
      if 1 <= i <= n {
        PathsExtend(sep, inner, body, i - 1);
        PrefixTransitive(l.level.pbuf, inner.level.pbuf, Paths(P(sep), inner, body)[i - 1]);
      } else if n < i {
        PathsExtend(sep, AfterSection(l, def), next, i - 1 - n);
      }
  }

  /** `l2` is a place in the same section as `l`, after `def` was opened there. */
  predicate Beyond(l: Place, def: SectionDef, l2: Place) {
    && l2.level.def == l.level.def && l2.level.pbuf == l.level.pbuf && l2.level.nbItem > l.level.nbItem
    && (l.level.def.id.PacketsAndFrames? ==>
          if def.id.Packet? then l2.packets > l.packets else l2.frames > l.frames)
  }

  predicate Typed(parent: SectionDef, def: SectionDef) {
    parent.id.PacketsAndFrames? ==> (def.id.Packet? <==> def.name == "packet")
  }

  /** No path of a later sibling, nor of anything in one, is comparable with the path of `def`. */
  lemma {:induction false} LaterApart(sep: char, l: Place, def: SectionDef, l2: Place, f: Forest, i: nat)
    requires !IsDigit(sep) && sep !in def.name && Typed(l.level.def, def) && Beyond(l, def, l2)
    requires Named(sep, l.level.def, f) && (!l.level.def.kind.Array? ==> def.name !in Names(f))
    requires i < |Paths(P(sep), l2, f)|
    ensures Apart(Path(sep, l, def), Paths(P(sep), l2, f)[i])
    decreases f
  {
    match f
    case Item(_, _, next) => LaterApart(sep, l, def, AfterItem(l2), next, i);
    case Section(def2, body, next) =>
      var inner := Into(P(sep), l2, def2);
      var n := |Paths(P(sep), inner, body)|;
      if i <= n {
        ChildrenApart(sep, l, def, l2, def2);
        if i > 0 {
          PathsExtend(sep, inner, body, i - 1);
          ExtensionApart(Path(sep, l, def), inner.level.pbuf, Paths(P(sep), inner, body)[i - 1]);
        }
      } else {
        LaterApart(sep, l, def, AfterSection(l2, def2), next, i - 1 - n);
      }
  }

  lemma ExtensionApart(a: string, b: string, x: string)
    requires Apart(a, b) && b <= x
    ensures Apart(a, x)
  {
    if a <= x {
      PrefixesCompare(a, b, x);
    }
    if x <= a {
      PrefixTransitive(b, x, a);
    }
  }

  predicate Distinct(s: seq<string>) {
    forall i, j :: 0 <= i < j < |s| ==> s[i] != s[j]
  }

  lemma {:induction false} PathsDistinct(sep: char, l: Place, f: Forest)
    requires !IsDigit(sep) && Named(sep, l.level.def, f) && OpenedOnce(l.level.def, f)
    ensures Distinct(Paths(P(sep), l, f))
    decreases f
  {
    match f
    case Done =>
    case Item(_, _, next) => PathsDistinct(sep, AfterItem(l), next);
    case Section(def, body, next) =>
      var inner, after := Into(P(sep), l, def), AfterSection(l, def);
      var inside, rest := Paths(P(sep), inner, body), Paths(P(sep), after, next);
      PathsDistinct(sep, inner, body);
      PathsDistinct(sep, after, next);
      forall i | 0 <= i < |inside| ensures inner.level.pbuf < inside[i] {
        PathsExtend(sep, inner, body, i);
      }
      forall j | 0 <= j < |rest| ensures Apart(inner.level.pbuf, rest[j]) {
        LaterApart(sep, l, def, after, next, j);
      }
      JoinDistinct(inner.level.pbuf, inside, rest);
  }

  lemma JoinDistinct(path: string, inside: seq<string>, rest: seq<string>)
    requires Distinct(inside) && Distinct(rest)
    requires forall i :: 0 <= i < |inside| ==> path < inside[i]
    requires forall j :: 0 <= j < |rest| ==> Apart(path, rest[j])
    ensures Distinct([path] + (inside + rest))
  {
    var s := [path] + (inside + rest);
    forall i, j | 0 <= i < j < |s| ensures s[i] != s[j] {
      if i == 0 {
        assert if j <= |inside| then s[j] == inside[j - 1] else s[j] == rest[j - 1 - |inside|];
      } else if j <= |inside| {
        assert s[i] == inside[i - 1] && s[j] == inside[j - 1];
      } else if i <= |inside| {
        assert s[i] == inside[i - 1] && s[j] == rest[j - 1 - |inside|];
      } else {
        assert s[i] == rest[i - 1 - |inside|] && s[j] == rest[j - 1 - |inside|];
      }
    }
  }

  // ---------------------------------------------------------------- a name opened twice

  /** Where the path of a child of that name is. */
  lemma {:induction false} PathOfName(sep: char, l: Place, f: Forest, name: string) returns (i: nat)
    requires !l.level.def.kind.Array? && name in Names(f)
    ensures i < |Paths(P(sep), l, f)| && Paths(P(sep), l, f)[i] == l.level.pbuf + (name + ([sep] + []))
    decreases f
  {
    match f
    case Item(_, _, next) => i := PathOfName(sep, AfterItem(l), next, name);
    case Section(def, body, next) =>
      if def.name == name {
        i := 0;
      } else {
        i := PathOfName(sep, AfterSection(l, def), next, name);
        i := 1 + |Paths(P(sep), Into(P(sep), l, def), body)| + i;
      }
  }

  predicate Repeats(s: seq<string>, i: nat, j: nat) {
    i < j < |s| && s[i] == s[j]
  }

  lemma {:induction false} OpenedTwice(sep: char, l: Place, f: Forest) returns (i: nat, j: nat)
    requires !OpenedOnce(l.level.def, f)
    ensures Repeats(Paths(P(sep), l, f), i, j)
    decreases f
  {
    match f
    case Item(_, _, next) => i, j := OpenedTwice(sep, AfterItem(l), next);
    case Section(def, body, next) =>
      var inner, after := Into(P(sep), l, def), AfterSection(l, def);
      var path, inside, rest := inner.level.pbuf, Paths(P(sep), inner, body), Paths(P(sep), after, next);
      if !OpenedOnce(def, body) {
        i, j := OpenedTwice(sep, inner, body);
        i, j := RepeatsInside(path, inside, rest, i, j);
      } else if !OpenedOnce(l.level.def, next) {
        i, j := OpenedTwice(sep, after, next);
        i, j := RepeatsAfter(path, inside, rest, i, j);
      } else {
        j := PathOfName(sep, after, next, def.name);
        i, j := RepeatsPath(path, inside, rest, j);
      }
  }

  // A repetition in a part of the list is one in the whole list.
  lemma RepeatsInside(path: string, inside: seq<string>, rest: seq<string>, i: nat, j: nat) returns (i': nat, j': nat)
    requires Repeats(inside, i, j)
    ensures Repeats([path] + (inside + rest), i', j')
  {
    i', j' := 1 + i, 1 + j;
  }

  lemma RepeatsAfter(path: string, inside: seq<string>, rest: seq<string>, i: nat, j: nat) returns (i': nat, j': nat)
    requires Repeats(rest, i, j)
    ensures Repeats([path] + (inside + rest), i', j')
  {
    i', j' := 1 + |inside| + i, 1 + |inside| + j;
  }

  lemma RepeatsPath(path: string, inside: seq<string>, rest: seq<string>, j: nat) returns (i': nat, j': nat)
    requires j < |rest| && rest[j] == path
    ensures Repeats([path] + (inside + rest), i', j')
  {
    i', j' := 0, 1 + |inside| + j;
  }

  // ---------------------------------------------------------------- the result

  lemma {:induction false} FollowsUncounted(id: SectionId, f: Forest)
    requires Follows(id, f) && !id.Root?
    ensures Uncounted(f)
    decreases f
  {
    match f
    case Done =>
    case Item(_, _, next) => FollowsUncounted(id, next);
    case Section(def, body, next) =>
      FollowsUncounted(def.id, body);
      FollowsUncounted(id, next);
  }

  predicate Occurs(sep: char, id: SectionId) {
    sep in Name(id)
  }

  /** The character occurs in no section name and is no digit. */
  ghost predicate Separates(sep: char) {
    !IsDigit(sep) && forall id: SectionId :: !Occurs(sep, id)
  }

  lemma {:induction false} FollowsNamed(sep: char, parent: SectionDef, f: Forest)
    requires Follows(parent.id, f) && Separates(sep)
    ensures Named(sep, parent, f)
    decreases f
  {
    match f
    case Done =>
    case Item(_, _, next) => FollowsNamed(sep, parent, next);
    case Section(def, body, next) =>
      assert !Occurs(sep, def.id);
      if parent.id.PacketsAndFrames? {
        PacketNames(def.id);
        FollowsUncounted(def.id, body);
      }
      FollowsNamed(sep, def, body);
      FollowsNamed(sep, parent, next);
  }

  lemma {:induction false} VisibleOpens(shows: (SectionId, string) -> bool, parent: SectionDef, f: Forest)
    ensures Names(W.Visible(shows, parent.id, f)) == Names(f)
    ensures OpenedOnce(parent, W.Visible(shows, parent.id, f)) <==> OpenedOnce(parent, f)
    decreases f
  {
    match f
    case Done =>
    case Item(_, _, next) => VisibleOpens(shows, parent, next);
    case Section(def, body, next) =>
      VisibleOpens(shows, def, body);
      VisibleOpens(shows, parent, next);
  }

  /** A whole output: the prefixes and the lines the machine leaves are those of the recursion. */
  lemma OutputRuns(sep: char, h: bool, root: SectionDef, f: Forest)
    requires root.kind.Wrapper? && !root.id.PacketsAndFrames? && Named(sep, root, f)
    ensures var p := W.FlatPrinter(sep, h);
            var m := W.Output(p, root, f);
            var l := Place(W.Level(root, 0, []), 0, 0);
            m.prefixes == [[]] + Paths(p, l, f) && m.out == Lines(p, l, f)
  {
    var p := W.FlatPrinter(sep, h);
    var l := Place(W.Level(root, 0, []), 0, 0);
    var m := W.Header(p, W.START, root);
    assert m.stack == [] + [l.level] && m.out == [] && m.prefixes == [[]];
    MachineRuns(sep, h, m, [], l, f);
    var m' := W.Run(p, m, f);
    assert m'.out + [] == m'.out;
  }

  lemma PathsDistinctIff(sep: char, l: Place, f: Forest)
    requires !IsDigit(sep) && Named(sep, l.level.def, f)
    ensures Distinct([l.level.pbuf] + Paths(P(sep), l, f)) <==> OpenedOnce(l.level.def, f)
  {
    var paths := Paths(P(sep), l, f);
    if OpenedOnce(l.level.def, f) {
      PathsDistinct(sep, l, f);
      forall i | 0 <= i < |paths| ensures l.level.pbuf < paths[i] {
        PathsExtend(sep, l, f, i);
      }
      JoinDistinct(l.level.pbuf, paths, []);
      assert paths + [] == paths;
    } else {
      var i, j := OpenedTwice(sep, l, f);
      assert ([l.level.pbuf] + paths)[1 + i] == ([l.level.pbuf] + paths)[1 + j];
    }
  }

  lemma NamedPrefixesIff(sep: char, root: SectionDef, f: Forest)
    requires root.kind.Wrapper? && !root.id.PacketsAndFrames? && Named(sep, root, f) && !IsDigit(sep)
    ensures Distinct(W.Output(W.FlatPrinter(sep, true), root, f).prefixes) <==> OpenedOnce(root, f)
  {
    OutputRuns(sep, true, root, f);
    PathsDistinctIff(sep, Place(W.Level(root, 0, []), 0, 0), f);
  }

  /** The sections opened directly in a section. */
  function Opened(f: Forest): set<SectionId> {
    match f
    case Done => {}
    case Item(_, _, next) => Opened(next)
    case Section(def, _, next) => {def.id} + Opened(next)
  }

  /** A section that is not an array opens each of its child sections at most once. */
  predicate ChildrenOnce(parent: SectionId, f: Forest)
    decreases f
  {
    match f
    case Done => true
    case Item(_, _, next) => ChildrenOnce(parent, next)
    case Section(def, body, next) =>
      (!Kind(parent).Array? ==> def.id !in Opened(next)) && ChildrenOnce(def.id, body) && ChildrenOnce(parent, next)
  }

  // Children of one section are told apart by their names.
  lemma {:induction false} OpenedName(parent: SectionId, child: SectionId, f: Forest)
    requires Follows(parent, f) && child in Children(parent)
    ensures Name(child) in Names(f) <==> child in Opened(f)
    decreases f
  {
    match f
    case Done =>
    case Item(_, _, next) => OpenedName(parent, child, next);
    case Section(def, _, next) =>
      OpenedName(parent, child, next);
      if def.id != child {
        ChildNamesDiffer(parent, child, def.id);
      }
  }

  lemma {:induction false} NamesOnceIff(parent: SectionDef, f: Forest)
    requires Follows(parent.id, f) && parent.kind == Kind(parent.id)
    ensures OpenedOnce(parent, f) <==> ChildrenOnce(parent.id, f)
    decreases f
  {
    match f
    case Done =>
    case Item(_, _, next) => NamesOnceIff(parent, next);
    case Section(def, body, next) =>
      OpenedName(parent.id, def.id, next);
      NamesOnceIff(def, body);
      NamesOnceIff(parent, next);
  }

  lemma ShownOnceIff(root: SectionDef, f: Forest, shows: (SectionId, string) -> bool)
    requires Follows(root.id, f) && root.kind == Kind(root.id)
    ensures OpenedOnce(root, W.Visible(shows, root.id, f)) <==> ChildrenOnce(root.id, f)
  {
    VisibleOpens(shows, root, f);
    NamesOnceIff(root, f);
  }

  lemma ShownNamed(sep: char, root: SectionDef, f: Forest, shows: (SectionId, string) -> bool)
    requires Follows(root.id, f) && Separates(sep)
    ensures Named(sep, root, W.Visible(shows, root.id, f))
  {
    W.VisibleFollows(shows, root.id, f);
    FollowsNamed(sep, root, W.Visible(shows, root.id, f));
  }

  // What is shown of the output has names that can be told apart, if and only if the whole has.
  lemma Shown(sep: char, root: SectionDef, f: Forest, shows: (SectionId, string) -> bool) returns (shown: Forest)
    requires Follows(root.id, f) && root.kind == Kind(root.id) && Separates(sep)
    ensures shown == W.Visible(shows, root.id, f) && Named(sep, root, shown) && !IsDigit(sep)
    ensures OpenedOnce(root, shown) <==> ChildrenOnce(root.id, f)
  {
    ShownNamed(sep, root, f, shows);
    ShownOnceIff(root, f, shows);
    shown := W.Visible(shows, root.id, f);
  }

  /** In hierarchical output that follows ffprobe's section structure, whichever entries are hidden and
      with a separator outside names and digits, no two sections get the same key prefix if and only
      if no section but an array opens a child section twice. */
  lemma PrefixesDistinctIff(sep: char, root: SectionDef, f: Forest, shows: (SectionId, string) -> bool)
    requires root.id.Root? && root.kind == Kind(root.id) && Follows(root.id, f) && Separates(sep)
    ensures Distinct(W.Output(W.FlatPrinter(sep, true), root, W.Visible(shows, root.id, f)).prefixes)
       <==> ChildrenOnce(root.id, f)
  {
    assert Kind(Root).Wrapper?;
    var shown := Shown(sep, root, f, shows);
    assert Distinct(W.Output(W.FlatPrinter(sep, true), root, shown).prefixes) <==> OpenedOnce(root, shown) by {
      NamedPrefixesIff(sep, root, shown);
    }
  }

  /** The default separator is such a one. */
  lemma DotSeparates()
    ensures Separates('.')
  {
    forall id: SectionId ensures !Occurs('.', id) {
      Csv.TableNames(id);
    }
  }

  const TWO_FORMATS := Section(Def(Format), Done, Section(Def(Format), Done, Done))

  lemma TwoFormatsShape(shows: (SectionId, string) -> bool)
    ensures Follows(Root, TWO_FORMATS) && !ChildrenOnce(Root, TWO_FORMATS)
    ensures W.Visible(shows, Root, TWO_FORMATS) == TWO_FORMATS
  {
  }

  /** A format section opened twice in the root gets the same prefix twice. */
  lemma TwoFormatsRepeat(shows: (SectionId, string) -> bool)
    ensures Follows(Root, TWO_FORMATS)
    ensures !Distinct(W.Output(W.FlatPrinter('.', true), Def(Root), TWO_FORMATS).prefixes)
  {
    DotSeparates();
    TwoFormatsShape(shows);
    PrefixesDistinctIff('.', Def(Root), TWO_FORMATS, shows);
  }
}
