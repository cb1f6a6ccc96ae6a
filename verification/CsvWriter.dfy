/** Records of ffprobe's CSV writer, for sections without nested sections, and a reader after
    section 2 of RFC 4180 that ends lines with LF and takes any separator. */
module CsvWriter {
  import opened Decimal
  import opened Text
  import opened Sections
  import opened Wrappers

  // ---------------------------------------------------------------- the text

  predicate NeedsQuoting(s: string, sep: char) {
    exists i :: 0 <= i < |s| && (s[i] == sep || s[i] == '"' || s[i] == '\n' || s[i] == '\r')
  }

  function Doubled(c: char): string {
    if c == '"' then "\"\"" else [c]
  }

  function DoubleQuotes(s: string): string {
    if s == [] then [] else Doubled(s[0]) + DoubleQuotes(s[1..])
  }

  function CsvEscape(s: string, sep: char): string {
    if NeedsQuoting(s, sep) then ['"'] + (DoubleQuotes(s) + ['"']) else s
  }

  lemma {:induction false} DoubleQuotesAppend(s: string, c: char)
    ensures DoubleQuotes(s + [c]) == DoubleQuotes(s) + Doubled(c)
    decreases |s|
  {
    if s == [] {
      assert s + [c] == [c] && [c][1..] == [];
      assert Doubled(c) + [] == Doubled(c);
    } else {
      TailOfJoin(s, [c]);
      DoubleQuotesAppend(s[1..], c);
      Assoc(Doubled(s[0]), DoubleQuotes(s[1..]), Doubled(c));
    }
  }

  lemma {:induction false} DoubleQuotesPlain(s: string)
    requires '"' !in s
    ensures DoubleQuotes(s) == s
    decreases |s|
  {
    if s != [] {
      DoubleQuotesPlain(s[1..]);
      assert s == [s[0]] + s[1..];
    }
  }

  /** Exactly a text with the separator, a quote or a line end is quoted; any other stays as it is. */
  lemma CsvUnchangedIff(s: string, sep: char)
    ensures CsvEscape(s, sep) == s <==> sep !in s && '"' !in s && '\n' !in s && '\r' !in s
    ensures CsvEscape(s, sep) != s ==> |CsvEscape(s, sep)| >= |s| + 2
  {
    DoublesLonger(s);
  }

  lemma {:induction false} DoublesLonger(s: string)
    ensures |DoubleQuotes(s)| >= |s|
    decreases |s|
  {
    if s != [] {
      DoublesLonger(s[1..]);
    }
  }

  /** strcspn over the separator, the quote and the line ends. */
  method Span(src: string, sep: char) returns (n: nat)
    ensures n <= |src| && (n < |src| <==> NeedsQuoting(src, sep))
  {
    n := 0;
    while n < |src| && !(src[n] == sep || src[n] == '"' || src[n] == '\n' || src[n] == '\r')
      invariant 0 <= n <= |src|
      invariant forall i :: 0 <= i < n ==> !(src[i] == sep || src[i] == '"' || src[i] == '\n' || src[i] == '\r')
    {
      n := n + 1;
    }
  }

  /** csv_escape_str */
  method CsvEscapeStr(src: string, sep: char) returns (dst: string)
    ensures dst == CsvEscape(src, sep)
  {
    var n := Span(src, sep);
    var needs_quoting := n < |src|;
    dst := [];
    if needs_quoting {
      dst := dst + ['"'];
    }
    dst := DoubleInto(dst, src);
    if needs_quoting {
      Assoc(['"'], DoubleQuotes(src), ['"']);
      dst := dst + ['"'];
    } else {
      DoubleQuotesPlain(src);
    }
  }

  // The copying loop of csv_escape_str.
  method DoubleInto(opening: string, src: string) returns (dst: string)
    ensures dst == opening + DoubleQuotes(src)
  {
    dst := opening;
    var p := 0;
    while p < |src|
      invariant 0 <= p <= |src| && dst == opening + DoubleQuotes(src[..p])
    {
      var c := src[p];
      ghost var before := dst;
      if c == '"' {
        dst := dst + ['"'];
      }
      dst := dst + [c];
      assert dst == before + Doubled(c);
      Assoc(opening, DoubleQuotes(src[..p]), Doubled(c));
      DoubleQuotesAppend(src[..p], c);
      assert src[..p + 1] == src[..p] + [c];
      p := p + 1;
    }
    assert src[..p] == src;
  }

  function FieldText(v: Value, sep: char): string {
    match v
    case Int(n) => IntText(n)
    case Str(s) => CsvEscape(s, sep)
  }

  /** The content of a field. */
  function Field(v: Value): string {
    match v
    case Int(n) => IntText(n)
    case Str(s) => s
  }

  /** Fields joined by the separator, then `t`. */
  function FieldsText(values: seq<Value>, sep: char, t: string): string {
    if values == [] then t
    else if |values| == 1 then FieldText(values[0], sep) + t
    else FieldText(values[0], sep) + ([sep] + FieldsText(values[1..], sep, t))
  }

  /** A record: the section name, the separator, the fields, a line feed, then `t`. */
  function RecordText(name: string, values: seq<Value>, sep: char, t: string): string {
    name + ([sep] + FieldsText(values, sep, ['\n'] + t))
  }

  /** An object section and the values it shows. */
  datatype Record = Record(section: SectionDef, values: seq<Value>)

  /** The records, then `t`. */
  function FileText(records: seq<Record>, sep: char, t: string): string {
    if records == [] then t
    else RecordText(records[0].section.name, records[0].values, sep, FileText(records[1..], sep, t))
  }

  // ---------------------------------------------------------------- the reader

  /** The rest of a quoted field after its opening quote, and what follows the closing quote. */
  function ReadQuoted(s: string): (r: Option<(string, string)>)
    ensures r.Some? ==> |r.value.1| < |s|
    decreases |s|
  {
    if s == [] then None
    else if s[0] != '"' then Prepend(s[0], ReadQuoted(s[1..]))
    else if |s| >= 2 && s[1] == '"' then Prepend('"', ReadQuoted(s[2..]))
    else Some(([], s[1..]))
  }

  predicate Stops(c: char, sep: char) {
    c == sep || c == '"' || c == '\n' || c == '\r'
  }

  function ReadBare(s: string, sep: char): (r: (string, string))
    ensures |r.1| <= |s|
  {
    if s == [] || Stops(s[0], sep) then ([], s)
    else
      var r := ReadBare(s[1..], sep);
      ([s[0]] + r.0, r.1)
  }

  function ReadField(s: string, sep: char): (r: Option<(string, string)>)
    ensures r.Some? ==> |r.value.1| <= |s|
  {
    if s != [] && s[0] == '"' then ReadQuoted(s[1..]) else Some(ReadBare(s, sep))
  }

  /** Fields up to the line feed, and what follows it. */
  function ReadRecord(s: string, sep: char): (r: Option<(seq<string>, string)>)
    ensures r.Some? ==> |r.value.1| < |s|
    decreases |s|
  {
    var f := ReadField(s, sep);
    if f.None? || f.value.1 == [] then None
    else
      var rest := f.value.1[1..];
      if f.value.1[0] == '\n' then Some(([f.value.0], rest))
      else if f.value.1[0] == sep then
        var more := ReadRecord(rest, sep);
        if more.None? then None else Some(([f.value.0] + more.value.0, more.value.1))
      else None
  }

  function ReadFile(s: string, sep: char): Option<seq<seq<string>>>
    decreases |s|
  {
    if s == [] then Some([])
    else
      var r := ReadRecord(s, sep);
      if r.None? then None
      else
        var more := ReadFile(r.value.1, sep);
        if more.None? then None else Some([r.value.0] + more.value)
  }

  // ---------------------------------------------------------------- what is printed reads back

  /** A separator that can be told from quotes, line ends and numbers. */
  predicate GoodSep(sep: char) {
    sep != '"' && sep != '\n' && sep != '\r' && !IsDigit(sep) && sep != '-'
  }

  predicate Ends(t: string, sep: char) {
    t != [] && (t[0] == sep || t[0] == '\n')
  }

  lemma OneQuoted(c: char, tail: string)
    ensures ReadQuoted(Doubled(c) + tail) == Prepend(c, ReadQuoted(tail))
  {
    Cut(Doubled(c), tail);
  }

  lemma {:induction false} QuotedReadsBack(s: string, t: string)
    requires t != [] && t[0] != '"'
    ensures ReadQuoted(DoubleQuotes(s) + (['"'] + t)) == Some((s, t))
    decreases |s|
  {
    var close := ['"'] + t;
    if s == [] {
      assert DoubleQuotes(s) + close == close;
      Cut(['"'], t);
    } else {
      QuotedReadsBack(s[1..], t);
      OneQuoted(s[0], DoubleQuotes(s[1..]) + close);
      Assoc(Doubled(s[0]), DoubleQuotes(s[1..]), close);
      HeadTail(s);
    }
  }

  lemma {:induction false} BareReadsBack(s: string, sep: char, t: string)
    requires forall i :: 0 <= i < |s| ==> !Stops(s[i], sep)
    requires Ends(t, sep)
    ensures ReadBare(s + t, sep) == (s, t)
    decreases |s|
  {
    if s == [] {
      assert s + t == t;
    } else {
      TailOfJoin(s, t);
      BareReadsBack(s[1..], sep, t);
      HeadTail(s);
    }
  }

  lemma QuotedField(s: string, sep: char, t: string)
    requires Ends(t, sep) && sep != '"'
    ensures ReadField(['"'] + (DoubleQuotes(s) + ['"']) + t, sep) == Some((s, t))
  {
    var body := DoubleQuotes(s);
    Assoc(['"'], body + ['"'], t);
    Assoc(body, ['"'], t);
    Cut(['"'], body + (['"'] + t));
    QuotedReadsBack(s, t);
  }

  lemma FieldReadsBack(v: Value, sep: char, t: string)
    requires GoodSep(sep) && Ends(t, sep)
    ensures ReadField(FieldText(v, sep) + t, sep) == Some((Field(v), t))
  {
    if v.Str? && NeedsQuoting(v.s, sep) {
      QuotedField(v.s, sep, t);
    } else {
      BareField(v, sep, t);
    }
  }

  lemma BareField(v: Value, sep: char, t: string)
    requires GoodSep(sep) && Ends(t, sep) && (v.Str? ==> !NeedsQuoting(v.s, sep))
    ensures ReadField(Field(v) + t, sep) == Some((Field(v), t))
  {
    var s := Field(v);
    if v.Int? {
      IntTextChars(v.n);
    }
    assert forall i :: 0 <= i < |s| ==> !Stops(s[i], sep);
    BareReadsBack(s, sep, t);
  }

  lemma IntTextChars(n: int)
    ensures forall i :: 0 <= i < |IntText(n)| ==> IsDigit(IntText(n)[i]) || IntText(n)[i] == '-'
  {
  }

  /** The fields a record has: an empty section still has one empty field after its name. */
  function Fields(values: seq<Value>): (r: seq<string>)
    ensures |r| == if values == [] then 1 else |values|
  {
    if values == [] then [""]
    else seq(|values|, i requires 0 <= i < |values| => Field(values[i]))
  }

  lemma {:induction false} FieldsReadBack(values: seq<Value>, sep: char, t: string)
    requires GoodSep(sep)
    ensures ReadRecord(FieldsText(values, sep, ['\n'] + t), sep) == Some((Fields(values), t))
    decreases |values|
  {
    if values == [] {
      assert (['\n'] + t)[1..] == t;
    } else if |values| == 1 {
      FieldReadsBack(values[0], sep, ['\n'] + t);
      assert (['\n'] + t)[1..] == t;
      assert Fields(values) == [Field(values[0])];
    } else {
      var rest := FieldsText(values[1..], sep, ['\n'] + t);
      FieldsReadBack(values[1..], sep, t);
      FirstFieldReads(values[0], sep, rest);
      assert Fields(values) == [Field(values[0])] + Fields(values[1..]);
    }
  }

  // A field, the separator, and what the record has after it.
  lemma FirstFieldReads(v: Value, sep: char, rest: string)
    requires GoodSep(sep)
    ensures var more := ReadRecord(rest, sep);
            ReadRecord(FieldText(v, sep) + ([sep] + rest), sep)
            == if more.None? then None else Some(([Field(v)] + more.value.0, more.value.1))
  {
    FieldReadsBack(v, sep, [sep] + rest);
    assert ([sep] + rest)[1..] == rest;
  }

  /** Section names are lower-case letters and underscores. */
  predicate IsName(name: string) {
    name != [] && forall i :: 0 <= i < |name| ==> name[i] == '_' || 'a' <= name[i] <= 'z'
  }

  lemma TableNames(id: SectionId)
    ensures IsName(Name(id))
  {
    if Mark(id) < 7000 {
      ShortNames(id);
    } else if Mark(id) < 12000 {
      MiddleNames(id);
    } else {
      LongNames(id);
    }
  }

  lemma ShortNames(id: SectionId)
    requires Mark(id) < 7000
    ensures IsName(Name(id))
  {
  }

  lemma MiddleNames(id: SectionId)
    requires 7000 <= Mark(id) < 12000
    ensures IsName(Name(id))
  {
  }

  lemma LongNames(id: SectionId)
    requires 12000 <= Mark(id)
    ensures IsName(Name(id))
  {
  }

  /** A record reads back as its section name and its fields exactly when the separator does not
      occur in the name, which is printed as it is. */
  lemma RecordReadsBackIff(name: string, values: seq<Value>, sep: char, t: string)
    requires GoodSep(sep) && IsName(name)
    ensures sep !in name <==>
            ReadRecord(RecordText(name, values, sep, t), sep) == Some(([name] + Fields(values), t))
  {
    if sep !in name {
      var rest := FieldsText(values, sep, ['\n'] + t);
      FieldsReadBack(values, sep, t);
      BareReadsBack(name, sep, [sep] + rest);
      assert ([sep] + rest)[1..] == rest;
    } else {
      NameIsCut(name, values, sep, t);
      assert ([name] + Fields(values))[0] == name;
    }
  }

  // With the separator in the name the first field is not the name.
  lemma NameIsCut(name: string, values: seq<Value>, sep: char, t: string)
    requires GoodSep(sep) && IsName(name) && sep in name
    ensures var r := ReadRecord(RecordText(name, values, sep, t), sep);
            r.Some? ==> |r.value.0| > 0 && |r.value.0[0]| < |name|
  {
    var rest := [sep] + FieldsText(values, sep, ['\n'] + t);
    ReadBareShort(name, sep, rest);
    assert (name + rest)[0] == name[0] != '"';
  }

  // A separator inside the text ends a bare field early.
  lemma {:induction false} ReadBareShort(s: string, sep: char, t: string)
    requires sep in s
    ensures |ReadBare(s + t, sep).0| < |s|
    decreases |s|
  {
    if !Stops(s[0], sep) {
      assert (s + t)[1..] == s[1..] + t;
      ReadBareShort(s[1..], sep, t);
    }
  }

  function Contents(records: seq<Record>): (r: seq<seq<string>>)
    ensures |r| == |records|
    ensures forall i :: 0 <= i < |r| ==> r[i] == [records[i].section.name] + Fields(records[i].values)
  {
    if records == [] then [] else [[records[0].section.name] + Fields(records[0].values)] + Contents(records[1..])
  }

  predicate NoNameHas(records: seq<Record>, sep: char) {
    forall i :: 0 <= i < |records| ==> sep !in records[i].section.name
  }

  /** A whole output reads back record by record, if and only if the separator is in none of the
      section names. */
  lemma {:induction false} FileReadsBackIff(records: seq<Record>, sep: char)
    requires GoodSep(sep) && forall i :: 0 <= i < |records| ==> IsName(records[i].section.name)
    ensures NoNameHas(records, sep) <==> ReadFile(FileText(records, sep, []), sep) == Some(Contents(records))
    decreases |records|
  {
    if records != [] {
      var r, rest := records[0], records[1..];
      var text := FileText(rest, sep, []);
      FileReadsBackIff(rest, sep);
      assert FileText(records, sep, []) == RecordText(r.section.name, r.values, sep, text) != [];
      assert NoNameHas(records, sep) <==> sep !in r.section.name && NoNameHas(rest, sep);
      if sep in r.section.name {
        NameIsCut(r.section.name, r.values, sep, text);
        assert Contents(records)[0][0] == r.section.name;
      } else {
        RecordReadsBackIff(r.section.name, r.values, sep, text);
        HeadAndRest([r.section.name] + Fields(r.values), Contents(rest), ReadFile(text, sep));
      }
    }
  }

  /** An underscore as the separator cuts the name of the program version section. */
  lemma UnderscoreCutsName(values: seq<Value>)
    ensures var text := FileText([Record(Def(ProgramVersion), values)], '_', []);
            ReadFile(text, '_') != Some([["program_version"] + Fields(values)])
  {
    var records := [Record(Def(ProgramVersion), values)];
    TableNames(ProgramVersion);
    assert records[0].section.name == "program_version" && "program_version"[7] == '_';
    assert !NoNameHas(records, '_');
    FileReadsBackIff(records, '_');
    assert Contents(records) == [["program_version"] + Fields(values)];
  }

  lemma HeadAndRest(head: seq<string>, rest: seq<seq<string>>, more: Option<seq<seq<string>>>)
    ensures more.Some? ==> ([head] + more.value == [head] + rest <==> more.value == rest)
  {
    if more.Some? && [head] + more.value == [head] + rest {
      assert more.value == ([head] + more.value)[1..] == ([head] + rest)[1..] == rest;
    }
  }

  // ---------------------------------------------------------------- the code

  /** The compact writer with nokey and print_section, for sections that are not nested. */
  class CompactContext {
    const sep: char
    var nb_item: nat
    var out: string

    constructor (sep: char)
      ensures this.sep == sep && out == []
    {
      this.sep, nb_item, out := sep, 0, [];
    }

    /** compact_print_section_header */
    method SectionHeader(section: SectionDef)
      modifies this
      ensures out == old(out) + (if section.kind.Object? then section.name + [sep] else []) && nb_item == 0
    {
      nb_item := 0;
      if section.kind.Object? {
        out := out + (section.name + [sep]);
      }
    }

    /** compact_print_str and compact_print_int */
    method PrintValue(v: Value)
      modifies this
      ensures out == old(out) + ((if old(nb_item) > 0 then [sep] else []) + FieldText(v, sep))
      ensures nb_item == old(nb_item) + 1
    {
      var text := FieldOf(v);
      Assoc(out, if nb_item > 0 then [sep] else [], text);
      if nb_item > 0 {
        out := out + [sep];
      } else {
        assert out + [] == out;
      }
      out := out + text;
      nb_item := nb_item + 1;
    }

    // The value as it is printed.
    method FieldOf(v: Value) returns (text: string)
      ensures text == FieldText(v, sep)
    {
      match v {
        case Str(s) => text := CsvEscapeStr(s, sep);
        case Int(n) => text := IntText(n);
      }
    }

    /** compact_print_section_footer */
    method SectionFooter(section: SectionDef)
      modifies this
      ensures out == old(out) + if section.kind.Object? then ['\n'] else []
    {
      if section.kind.Object? {
        out := out + ['\n'];
      }
    }

    /** An object section as the show functions print it: header, entries, footer. */
    method PrintSection(section: SectionDef, values: seq<Value>)
      requires section.kind.Object?
      modifies this
      ensures out == old(out) + RecordText(section.name, values, sep, [])
    {
      SectionHeader(section);
      ghost var begun := out;
      var i := 0;
      while i < |values|
        invariant 0 <= i <= |values| && nb_item == i
        invariant out == begun + FieldsText(values[..i], sep, [])
      {
        FieldsAppend(values[..i], values[i], sep);
        assert values[..i + 1] == values[..i] + [values[i]];
        assert values[..i] == [] <==> i == 0;
        Assoc(begun, FieldsText(values[..i], sep, []), (if i > 0 then [sep] else []) + FieldText(values[i], sep));
        PrintValue(values[i]);
        i := i + 1;
      }
      assert values[..i] == values;
      SectionFooter(section);
      RecordIs(old(out), section.name, values, sep);
    }
  }

  /** A sequence of object sections of the table, printed one after the other, gives a text that reads
      back record by record if and only if the separator is in none of their names. */
  method PrintRecords(records: seq<Record>, sep: char) returns (text: string)
    requires GoodSep(sep)
    requires forall i :: 0 <= i < |records| ==> OfTable(records[i].section) && records[i].section.kind.Object?
    ensures text == FileText(records, sep, [])
    ensures NoNameHas(records, sep) <==> ReadFile(text, sep) == Some(Contents(records))
  {
    var w := new CompactContext(sep);
    var i := 0;
    while i < |records|
      invariant 0 <= i <= |records| && fresh(w)
      invariant w.out == FileText(records[..i], sep, [])
    {
      FileTextNext(records, i, sep);
      w.PrintSection(records[i].section, records[i].values);
      i := i + 1;
    }
    assert records[..i] == records;
    text := w.out;
    forall k | 0 <= k < |records| ensures IsName(records[k].section.name) {
      TableNames(records[k].section.id);
    }
    FileReadsBackIff(records, sep);
  }

  // The text after one more record.
  lemma FileTextNext(records: seq<Record>, i: nat, sep: char)
    requires i < |records|
    ensures FileText(records[..i + 1], sep, [])
         == FileText(records[..i], sep, []) + RecordText(records[i].section.name, records[i].values, sep, [])
  {
    FileTextAppend(records[..i], records[i], sep);
    assert records[..i + 1] == records[..i] + [records[i]];
  }

  /** An entry of the section table. */
  predicate OfTable(section: SectionDef) {
    section.name == Name(section.id) && section.kind == Kind(section.id)
  }

  lemma {:induction false} FileTextAppend(records: seq<Record>, r: Record, sep: char)
    ensures FileText(records + [r], sep, []) == FileText(records, sep, []) + RecordText(r.section.name, r.values, sep, [])
    decreases |records|
  {
    var last := RecordText(r.section.name, r.values, sep, []);
    if records == [] {
      assert records + [r] == [r] && [r][1..] == [];
      assert [] + last == last;
    } else {
      var first := records[0];
      assert (records + [r])[1..] == records[1..] + [r];
      FileTextAppend(records[1..], r, sep);
      RecordThen(first.section.name, first.values, sep, FileText(records[1..], sep, []), last);
    }
  }

  lemma RecordThen(name: string, values: seq<Value>, sep: char, t: string, u: string)
    ensures RecordText(name, values, sep, t + u) == RecordText(name, values, sep, t) + u
  {
    var end := ['\n'];
    FieldsThen(values, sep, end + (t + u));
    FieldsThen(values, sep, end + t);
    var fields := FieldsText(values, sep, []);
    Assoc(end, t, u);
    Assoc(fields, end + t, u);
    Assoc([sep], fields + (end + t), u);
    Assoc(name, [sep] + (fields + (end + t)), u);
  }

  lemma RecordIs(o: string, name: string, values: seq<Value>, sep: char)
    ensures o + (name + [sep]) + FieldsText(values, sep, []) + ['\n'] == o + RecordText(name, values, sep, [])
  {
    FieldsThen(values, sep, ['\n']);
    assert ['\n'] + [] == ['\n'];
  }

  lemma {:induction false} FieldsThen(values: seq<Value>, sep: char, t: string)
    ensures FieldsText(values, sep, t) == FieldsText(values, sep, []) + t
    decreases |values|
  {
    if |values| > 1 {
      FieldsThen(values[1..], sep, t);
    }
  }

  lemma {:induction false} FieldsAppend(values: seq<Value>, v: Value, sep: char)
    ensures FieldsText(values + [v], sep, [])
         == FieldsText(values, sep, []) + ((if values == [] then [] else [sep]) + FieldText(v, sep))
    decreases |values|
  {
    if |values| > 0 {
      assert (values + [v])[1..] == values[1..] + [v];
      FieldsAppend(values[1..], v, sep);
      if |values| == 1 {
        assert FieldsText([v], sep, []) == FieldText(v, sep) + [];
        assert values[1..] + [v] == [v];
      }
    }
  }
}
