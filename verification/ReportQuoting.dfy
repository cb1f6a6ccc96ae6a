/** The command line in a report: dump_argument quotes each argument and parse_loglevel joins them
    with spaces. A reader of the report is given here as a parser, and gets the same argv back. */
module ReportQuoting {
  import opened Decimal
  import opened Text
  import opened Wrappers

  /** C strings hold bytes; a character here stands for a byte below 256. */
  predicate IsBytes(a: string) {
    forall i :: 0 <= i < |a| ==> a[i] as int < 256
  }

  /** The characters an argument may have to be printed without quotes. */
  predicate Bare(c: char) {
    ('+' <= c <= ':') || ('@' <= c <= 'Z') || c == '_' || ('a' <= c <= 'z')
  }

  function DigitValue(c: char): Option<int> {
    if '0' <= c <= '9' then Some(c as int - '0' as int)
    else if 'a' <= c <= 'f' then Some(c as int - 'a' as int + 10)
    else None
  }

  /** One character between quotes. */
  function Escape(c: char): string {
    if c == '\\' || c == '"' || c == '$' || c == '`' then ['\\', c]
    else if c < ' ' || c > '~' then ['\\', 'x', HexChar(c as int / 16 % 16), HexChar(c as int % 16)]
    else [c]
  }

  function EscapeAll(a: string): string {
    if a == [] then [] else Escape(a[0]) + EscapeAll(a[1..])
  }

  function Dump(a: string): string {
    if forall c :: c in a ==> Bare(c) then a else ['"'] + EscapeAll(a) + ['"']
  }

  /** An argument is printed without quotes exactly when it is made of letters, digits and the characters
      + , - . / : @ and _ only. */
  lemma UnquotedIff(a: string)
    ensures Dump(a) == a <==>
            forall c :: c in a ==> 'a' <= c <= 'z' || 'A' <= c <= 'Z' || '0' <= c <= '9'
                                   || c in ['+', ',', '-', '.', '/', ':', '@', '_']
    ensures Dump(a) != a ==> |Dump(a)| >= |a| + 2 && Dump(a)[0] == '"' == Dump(a)[|Dump(a)| - 1]
  {
    var marks := ['+', ',', '-', '.', '/', ':', '@', '_'];
    assert marks[0] == '+' && marks[1] == ',' && marks[2] == '-' && marks[3] == '.';
    assert marks[4] == '/' && marks[5] == ':' && marks[6] == '@' && marks[7] == '_';
    assert forall c :: Bare(c) <==> 'a' <= c <= 'z' || 'A' <= c <= 'Z' || '0' <= c <= '9' || c in marks;
    EscapeAllLonger(a);
  }

  lemma {:induction false} EscapeAllLonger(a: string)
    ensures |EscapeAll(a)| >= |a|
    decreases |a|
  {
    if a != [] {
      EscapeAllLonger(a[1..]);
    }
  }

  /** Between quotes a character takes two characters when it is a backslash, a double quote, a dollar sign
      or a backquote, four when it is not printable ASCII, and else stays as it is. */
  lemma EscapeLength(c: char)
    ensures |Escape(c)| == if c in ['\\', '"', '$', '`'] then 2 else if ' ' <= c <= '~' then 1 else 4
    ensures |Escape(c)| == 1 ==> Escape(c) == [c]
  {
    var marks := ['\\', '"', '$', '`'];
    assert marks[0] == '\\' && marks[1] == '"' && marks[2] == '$' && marks[3] == '`';
  }

  function Separator(last: bool): char {
    if last then '\n' else ' '
  }

  /** The arguments, each followed by a space; with `end` the last is followed by a newline. */
  function Separated(argv: seq<string>, end: bool): string {
    if argv == [] then []
    else Dump(argv[0]) + [Separator(end && |argv| == 1)] + Separated(argv[1..], end)
  }

  /** The line of the report for `argv`. */
  function CommandLine(argv: seq<string>): string {
    Separated(argv, true)
  }

  // ---------------------------------------------------------------- the code

  /** dump_argument */
  method DumpArgument(a: string) returns (out: string)
    ensures out == Dump(a)
  {
    var p := 0;
    while p < |a|
      invariant 0 <= p <= |a| && forall i :: 0 <= i < p ==> Bare(a[i])
    {
      if !Bare(a[p]) {
        break;
      }
      p := p + 1;
    }
    if p == |a| {
      return a;
    }
    assert a[p] in a;
    var quoted := EscapeEach(a);
    out := ['"'] + quoted + ['"'];
  }

  // The second loop of dump_argument.
  method EscapeEach(a: string) returns (out: string)
    ensures out == EscapeAll(a)
  {
    out := [];
    var p := 0;
    while p < |a|
      invariant 0 <= p <= |a| && out == EscapeAll(a[..p])
    {
      var c := a[p];
      EscapeAllAppend(a[..p], c);
      assert a[..p + 1] == a[..p] + [c];
      if c == '\\' || c == '"' || c == '$' || c == '`' {
        out := out + ['\\', c];
      } else if c < ' ' || c > '~' {
        out := out + ['\\', 'x', HexChar(c as int / 16 % 16), HexChar(c as int % 16)];
      } else {
        out := out + [c];
      }
      p := p + 1;
    }
    assert a[..p] == a;
  }

  lemma {:induction false} EscapeAllAppend(a: string, c: char)
    ensures EscapeAll(a + [c]) == EscapeAll(a) + Escape(c)
    decreases |a|
  {
    if a == [] {
      assert EscapeAll([c]) == Escape(c) + [];
    } else {
      assert (a + [c])[1..] == a[1..] + [c];
      EscapeAllAppend(a[1..], c);
    }
  }

  lemma {:induction false} SeparatedAppend(argv: seq<string>, a: string, last: bool)
    ensures Separated(argv + [a], last) == Separated(argv, false) + Dump(a) + [Separator(last)]
    decreases |argv|
  {
    if argv == [] {
      assert argv + [a] == [a] && [a][1..] == [];
      assert Dump(a) + [Separator(last)] + [] == [] + Dump(a) + [Separator(last)];
    } else {
      var head, rest := Dump(argv[0]) + [' '], Separated(argv[1..], false);
      assert (argv + [a])[1..] == argv[1..] + [a];
      SeparatedAppend(argv[1..], a, last);
      Assoc(head, rest + Dump(a), [Separator(last)]);
      Assoc(head, rest, Dump(a));
    }
  }

  lemma SeparatedStep(argv: seq<string>, i: nat)
    requires i < |argv|
    ensures Separated(argv[..i + 1], i + 1 == |argv|)
         == Separated(argv[..i], false) + Dump(argv[i]) + [if i < |argv| - 1 then ' ' else '\n']
  {
    var s := argv[..i + 1];
    assert s == argv[..i] + [argv[i]];
    SeparatedAppend(argv[..i], argv[i], i + 1 == |argv|);
  }

  /** The loop of parse_loglevel over argv. */
  method DumpCommandLine(argv: seq<string>) returns (out: string)
    ensures out == CommandLine(argv)
  {
    out := [];
    var i := 0;
    while i < |argv|
      invariant 0 <= i <= |argv|
      invariant out == Separated(argv[..i], i == |argv|)
    {
      var d := DumpArgument(argv[i]);
      SeparatedStep(argv, i);
      out := out + d + [if i < |argv| - 1 then ' ' else '\n'];
      i := i + 1;
    }
    assert argv[..i] == argv;
  }

  // ---------------------------------------------------------------- the reader

  /** The text up to the closing quote, and what follows the quote. */
  function ParseQuoted(s: string): (r: Option<(string, string)>)
    ensures r.Some? ==> |r.value.1| < |s|
    decreases |s|
  {
    if s == [] then None
    else if s[0] == '"' then Some(([], s[1..]))
    else if s[0] != '\\' then Prepend(s[0], ParseQuoted(s[1..]))
    else if |s| >= 4 && s[1] == 'x' then
      var h, l := DigitValue(s[2]), DigitValue(s[3]);
      if h.None? || l.None? then None
      else Prepend((16 * h.value + l.value) as char, ParseQuoted(s[4..]))
    else if |s| >= 2 then Prepend(s[1], ParseQuoted(s[2..]))
    else None
  }

  /** The longest unquoted text, and what follows. */
  function ParseBare(s: string): (r: (string, string))
    ensures |r.1| <= |s|
  {
    if s == [] || !Bare(s[0]) then ([], s)
    else
      var r := ParseBare(s[1..]);
      ([s[0]] + r.0, r.1)
  }

  function ParseArgument(s: string): (r: Option<(string, string)>)
    ensures r.Some? ==> |r.value.1| <= |s|
  {
    if s != [] && s[0] == '"' then ParseQuoted(s[1..]) else Some(ParseBare(s))
  }

  /** Arguments separated by one space each, ended by a newline. */
  function ParseLine(s: string): Option<seq<string>>
    decreases |s|
  {
    if s == [] then Some([])
    else
      var a := ParseArgument(s);
      if a.None? || a.value.1 == [] then None
      else
        var rest := a.value.1[1..];
        if a.value.1[0] == '\n' then if rest == [] then Some([a.value.0]) else None
        else if a.value.1[0] == ' ' && rest != [] then
          var more := ParseLine(rest);
          if more.None? then None else Some([a.value.0] + more.value)
        else None
  }

  lemma DigitsRead(c: char)
    requires c as int < 256
    ensures var h, l := DigitValue(HexChar(c as int / 16 % 16)), DigitValue(HexChar(c as int % 16));
            h.Some? && l.Some? && (16 * h.value + l.value) as char == c
  {
  }

  lemma OneQuoted(c: char, tail: string)
    requires c as int < 256
    ensures ParseQuoted(Escape(c) + tail) == Prepend(c, ParseQuoted(tail))
  {
    DigitsRead(c);
    assert (Escape(c) + tail)[|Escape(c)|..] == tail;
  }

  lemma {:induction false} QuotedReadsBack(a: string, rest: string)
    requires IsBytes(a)
    ensures ParseQuoted(EscapeAll(a) + ['"'] + rest) == Some((a, rest))
    decreases |a|
  {
    if a == [] {
      assert EscapeAll(a) + ['"'] + rest == ['"'] + rest;
    } else {
      var e := EscapeAll(a[1..]);
      QuotedReadsBack(a[1..], rest);
      OneQuoted(a[0], e + ['"'] + rest);
      Assoc(Escape(a[0]), e, ['"']);
      Assoc(Escape(a[0]), e + ['"'], rest);
      HeadTail(a);
    }
  }

  lemma {:induction false} BareReadsBack(a: string, rest: string)
    requires forall c :: c in a ==> Bare(c)
    requires rest != [] ==> !Bare(rest[0])
    ensures ParseBare(a + rest) == (a, rest)
    decreases |a|
  {
    if a == [] {
      assert a + rest == rest;
    } else {
      assert a[0] in a && (a + rest)[1..] == a[1..] + rest;
      BareReadsBack(a[1..], rest);
      assert a == [a[0]] + a[1..];
    }
  }

  lemma ArgumentReadsBack(a: string, rest: string)
    requires IsBytes(a)
    requires rest != [] && (rest[0] == ' ' || rest[0] == '\n')
    ensures ParseArgument(Dump(a) + rest) == Some((a, rest))
  {
    if forall c :: c in a ==> Bare(c) {
      BareReadsBack(a, rest);
      assert a != [] ==> a[0] in a && Bare(a[0]);
      assert (a + rest)[0] != '"';
    } else {
      var e := EscapeAll(a) + ['"'];
      Assoc(['"'], EscapeAll(a), ['"']);
      Assoc(['"'], e, rest);
      Cut(['"'], e + rest);
      QuotedReadsBack(a, rest);
    }
  }

  // The reader after one argument and its separator.
  lemma ParseOne(a: string, sep: char, rest: string)
    requires IsBytes(a)
    requires sep == ' ' || sep == '\n'
    ensures ParseLine(Dump(a) + [sep] + rest) ==
            if sep == '\n' then (if rest == [] then Some([a]) else None)
            else if rest == [] || ParseLine(rest).None? then None
            else Some([a] + ParseLine(rest).value)
  {
    var s := Dump(a) + [sep] + rest;
    assert s == Dump(a) + ([sep] + rest);
    ArgumentReadsBack(a, [sep] + rest);
    assert ([sep] + rest)[1..] == rest;
  }

  /** The logged command line reads back as exactly the same argv, whatever bytes the arguments
      hold and even when some are empty. */
  lemma {:induction false} CommandLineReadsBack(argv: seq<string>)
    requires forall i :: 0 <= i < |argv| ==> IsBytes(argv[i])
    ensures ParseLine(CommandLine(argv)) == Some(argv)
    decreases |argv|
  {
    if argv != [] {
      var rest := argv[1..];
      CommandLineReadsBack(rest);
      assert rest != [] ==> |CommandLine(rest)| > 0;
      ParseOne(argv[0], Separator(|argv| == 1), CommandLine(rest));
      assert CommandLine(argv) == Dump(argv[0]) + [Separator(|argv| == 1)] + CommandLine(rest);
      assert |argv| == 1 ==> argv == [argv[0]];
      assert argv == [argv[0]] + rest;
    }
  }
}
