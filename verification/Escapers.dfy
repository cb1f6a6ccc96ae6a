/** The string escapers of ffprobe's compact, flat and INI writers, and how to undo them. */
module Escapers {
  import opened Decimal
  import opened Text
  import opened Wrappers

  const BS: char := '\U{08}'  // \b
  const FF: char := '\U{0C}'  // \f

  function HexValue(c: char): nat {
    if '0' <= c <= '9' then c as int - '0' as int
    else if 'a' <= c <= 'f' then c as int - 'a' as int + 10
    else 0
  }

  /** An escaper works character by character. */
  function MapChars(f: char -> string, s: string): string {
    if s == [] then [] else f(s[0]) + MapChars(f, s[1..])
  }

  lemma {:induction false} MapAppend(f: char -> string, s: string, c: char)
    ensures MapChars(f, s + [c]) == MapChars(f, s) + f(c)
    decreases |s|
  {
    if s == [] {
      assert [c][1..] == [] && MapChars(f, [c]) == f(c) + [];
    } else {
      assert (s + [c])[1..] == s[1..] + [c];
      MapAppend(f, s[1..], c);
    }
  }

  /** A text is left as it is by an escaper that leaves single characters or makes them longer, exactly
      when it makes none of them longer. */
  lemma {:induction false} MapUnchangedIff(f: char -> string, s: string)
    requires forall c :: f(c) == [c] || |f(c)| > 1
    ensures MapChars(f, s) == s <==> forall c :: c in s ==> f(c) == [c]
    ensures |MapChars(f, s)| >= |s| && (|MapChars(f, s)| == |s| ==> MapChars(f, s) == s)
    decreases |s|
  {
    if s != [] {
      MapUnchangedIff(f, s[1..]);
      HeadTail(s);
      assert forall c :: c in s <==> c == s[0] || c in s[1..];
      assert |f(s[0])| >= 1;
    }
  }

  // ---------------------------------------------------------------- C escaping

  function CChar(c: char, sep: char): string {
    if c == BS then "\\b"
    else if c == FF then "\\f"
    else if c == '\n' then "\\n"
    else if c == '\r' then "\\r"
    else if c == '\\' then "\\\\"
    else if c == sep then ['\\', c]
    else [c]
  }

  function CEscape(s: string, sep: char): string {
    MapChars(c => CChar(c, sep), s)
  }

  function CUnescape(s: string): string
    decreases |s|
  {
    if |s| < 2 || s[0] != '\\' then if s == [] then [] else [s[0]] + CUnescape(s[1..])
    else
      var c := if s[1] == 'b' then BS else if s[1] == 'f' then FF else if s[1] == 'n' then '\n'
               else if s[1] == 'r' then '\r' else s[1];
      [c] + CUnescape(s[2..])
  }

  /** c_escape_str */
  method CEscapeStr(src: string, sep: char) returns (dst: string)
    ensures dst == CEscape(src, sep)
  {
    ghost var f := c => CChar(c, sep);
    dst := [];
    var p := 0;
    while p < |src|
      invariant 0 <= p <= |src| && dst == MapChars(f, src[..p])
    {
      var c := src[p];
      MapAppend(f, src[..p], c);
      assert src[..p + 1] == src[..p] + [c];
      match c {
        case '\U{08}' => dst := dst + "\\b";
        case '\U{0C}' => dst := dst + "\\f";
        case '\n' => dst := dst + "\\n";
        case '\r' => dst := dst + "\\r";
        case '\\' => dst := dst + "\\\\";
        case _ =>
          if c == sep {
            dst := dst + ['\\'];
          }
          dst := dst + [c];
      }
      p := p + 1;
    }
    assert src[..p] == src;
  }

  predicate Clashes(sep: char) {
    sep == 'b' || sep == 'f' || sep == 'n' || sep == 'r'
  }

  lemma {:induction false} CReadsBack(s: string, sep: char)
    requires !Clashes(sep)
    ensures CUnescape(CEscape(s, sep)) == s
    decreases |s|
  {
    if s != [] {
      CReadsBack(s[1..], sep);
      assert CEscape(s, sep) == CChar(s[0], sep) + CEscape(s[1..], sep);
      CCharReads(s[0], sep, CEscape(s[1..], sep));
      assert s == [s[0]] + s[1..];
    }
  }

  // One character reads back, whatever follows.
  lemma CCharReads(c: char, sep: char, t: string)
    requires !Clashes(sep)
    ensures CUnescape(CChar(c, sep) + t) == [c] + CUnescape(t)
  {
    assert (CChar(c, sep) + t)[|CChar(c, sep)|..] == t;
  }

  /** C escaping takes two characters for a control character that has a letter, a backslash and the
      separator, and leaves every other character as it is. */
  lemma CUnchangedIff(s: string, sep: char)
    ensures CEscape(s, sep) == s <==> forall c :: c in s ==> c !in [BS, FF, '\n', '\r', '\\', sep]
    ensures forall c :: CChar(c, sep) == [c] || (|CChar(c, sep)| == 2 && CChar(c, sep)[0] == '\\')
  {
    var f := c => CChar(c, sep);
    var special := [BS, FF, '\n', '\r', '\\', sep];
    assert special[0] == BS && special[1] == FF && special[2] == '\n' && special[3] == '\r';
    assert special[4] == '\\' && special[5] == sep;
    assert forall c :: f(c) == [c] <==> c !in special;
    MapUnchangedIff(f, s);
  }

  /** C escaping loses nothing if and only if the separator is none of b, f, n and r, whose escaped
      forms already stand for control characters. */
  lemma CEscapeInjectiveIff(sep: char)
    ensures !Clashes(sep) <==> forall s, t :: CEscape(s, sep) == CEscape(t, sep) ==> s == t
  {
    if !Clashes(sep) {
      forall s, t | CEscape(s, sep) == CEscape(t, sep) ensures s == t {
        CReadsBack(s, sep);
        CReadsBack(t, sep);
      }
    } else {
      var control := if sep == 'b' then BS else if sep == 'f' then FF else if sep == 'n' then '\n' else '\r';
      OneChar(control, sep);
      OneChar(sep, sep);
      assert CEscape([control], sep) == CEscape([sep], sep) && [control][0] != [sep][0];
    }
  }

  /** With the separator n a line break and an n become the same. */
  lemma ClashLosesText()
    ensures CEscape("\n", 'n') == CEscape("n", 'n') == "\\n"
  {
    OneChar('\n', 'n');
    OneChar('n', 'n');
  }

  lemma OneChar(c: char, sep: char)
    ensures CEscape([c], sep) == CChar(c, sep)
  {
    var f := c => CChar(c, sep);
    assert [c][1..] == [];
    assert MapChars(f, [c]) == f(c) + MapChars(f, []) == f(c);
  }

  // ---------------------------------------------------------------- flat values and keys

  function FlatChar(c: char): string {
    if c == '\n' then "\\n"
    else if c == '\r' then "\\r"
    else if c == '\\' || c == '"' || c == '`' || c == '$' then ['\\', c]
    else [c]
  }

  function FlatEscape(s: string): string {
    MapChars(FlatChar, s)
  }

  function FlatUnescape(s: string): string
    decreases |s|
  {
    if |s| < 2 || s[0] != '\\' then if s == [] then [] else [s[0]] + FlatUnescape(s[1..])
    else [if s[1] == 'n' then '\n' else if s[1] == 'r' then '\r' else s[1]] + FlatUnescape(s[2..])
  }

  /** flat_escape_value_str */
  method FlatEscapeValueStr(src: string) returns (dst: string)
    ensures dst == FlatEscape(src)
  {
    dst := [];
    var p := 0;
    while p < |src|
      invariant 0 <= p <= |src| && dst == MapChars(FlatChar, src[..p])
    {
      var c := src[p];
      MapAppend(FlatChar, src[..p], c);
      assert src[..p + 1] == src[..p] + [c];
      match c {
        case '\n' => dst := dst + "\\n";
        case '\r' => dst := dst + "\\r";
        case '\\' => dst := dst + "\\\\";
        case '"' => dst := dst + "\\\"";
        case '`' => dst := dst + "\\`";
        case '$' => dst := dst + "\\$";
        case _ => dst := dst + [c];
      }
      p := p + 1;
    }
    assert src[..p] == src;
  }

  /** A flat value takes two characters for a line end, a backslash, a double quote, a backquote and a
      dollar sign, and leaves every other character as it is. */
  lemma FlatUnchangedIff(s: string)
    ensures FlatEscape(s) == s <==> forall c :: c in s ==> c !in ['\n', '\r', '\\', '"', '`', '$']
    ensures forall c :: FlatChar(c) == [c] || (|FlatChar(c)| == 2 && FlatChar(c)[0] == '\\')
  {
    var special := ['\n', '\r', '\\', '"', '`', '$'];
    assert special[0] == '\n' && special[1] == '\r' && special[2] == '\\' && special[3] == '"';
    assert special[4] == '`' && special[5] == '$';
    assert forall c :: FlatChar(c) == [c] <==> c !in special;
    MapUnchangedIff(FlatChar, s);
  }

  /** Every flat value reads back, and its escaped form is on one line. */
  lemma {:induction false} FlatReadsBack(s: string)
    ensures FlatUnescape(FlatEscape(s)) == s
    ensures forall i :: 0 <= i < |FlatEscape(s)| ==> FlatEscape(s)[i] != '\n' && FlatEscape(s)[i] != '\r'
    decreases |s|
  {
    if s != [] {
      FlatReadsBack(s[1..]);
      FlatCharReads(s[0], FlatEscape(s[1..]));
      HeadTail(s);
    }
  }

  lemma FlatCharReads(c: char, t: string)
    ensures FlatUnescape(FlatChar(c) + t) == [c] + FlatUnescape(t)
  {
    var e := FlatChar(c);
    var s := e + t;
    Cut(e, t);
    assert s[0] == e[0];
    if |e| == 2 {
      assert s[0] == '\\' && s[1] == e[1] && s[2..] == t;
    } else {
      assert s[0] == c != '\\' && s[1..] == t;
    }
  }

  predicate IsAlnum(c: char) {
    '0' <= c <= '9' || 'a' <= c <= 'z' || 'A' <= c <= 'Z'
  }

  /** flat_escape_key_str: what is not a letter or a digit becomes '_'. */
  method FlatEscapeKeyStr(src: string) returns (dst: string)
    ensures dst == FlatKey(src)
  {
    dst := [];
    var p := 0;
    while p < |src|
      invariant 0 <= p <= |src| && dst == FlatKey(src[..p])
    {
      if !IsAlnum(src[p]) {
        dst := dst + ['_'];
      } else {
        dst := dst + [src[p]];
      }
      p := p + 1;
      assert src[..p][..p - 1] == src[..p - 1];
    }
    assert src[..p] == src;
  }

  function FlatKey(s: string): (r: string)
    ensures |r| == |s| && forall i :: 0 <= i < |s| ==> r[i] == if IsAlnum(s[i]) then s[i] else '_'
  {
    if s == [] then []
    else FlatKey(s[..|s| - 1]) + [if IsAlnum(s[|s| - 1]) then s[|s| - 1] else '_']
  }

  // ---------------------------------------------------------------- INI

  function IniChar(c: char): string {
    if c == BS then "\\b"
    else if c == FF then "\\f"
    else if c == '\n' then "\\n"
    else if c == '\r' then "\\r"
    else if c == '\t' then "\\t"
    else if c == '\\' || c == '#' || c == '=' || c == ':' then ['\\', c]
    else if c < ' ' then ['\\', 'x', '0', '0', HexChar(c as int / 16), HexChar(c as int % 16)]
    else [c]
  }

  function IniEscape(s: string): string {
    MapChars(IniChar, s)
  }

  /** The first character of an escaped text, and how many characters it took. */
  function IniFirst(s: string): (char, nat)
    requires s != []
  {
    if |s| < 2 || s[0] != '\\' then (s[0], 1)
    else if s[1] == 'b' then (BS, 2)
    else if s[1] == 'f' then (FF, 2)
    else if s[1] == 'n' then ('\n', 2)
    else if s[1] == 'r' then ('\r', 2)
    else if s[1] == 't' then ('\t', 2)
    else if s[1] == 'x' && |s| >= 6 then ((16 * HexValue(s[4]) + HexValue(s[5])) as char, 6)
    else (s[1], 2)
  }

  function IniUnescape(s: string): string
    decreases |s|
  {
    if s == [] then [] else [IniFirst(s).0] + IniUnescape(s[IniFirst(s).1..])
  }

  /** ini_escape_str: the cases of '\\', '#', '=' and ':' fall through into the default. */
  method IniEscapeStr(src: string) returns (dst: string)
    ensures dst == IniEscape(src)
  {
    dst := [];
    var i := 0;
    while i < |src|
      invariant 0 <= i <= |src| && dst == MapChars(IniChar, src[..i])
    {
      var c := src[i];
      MapAppend(IniChar, src[..i], c);
      assert src[..i + 1] == src[..i] + [c];
      i := i + 1;
      match c {
        case '\U{08}' => dst := dst + "\\b";
        case '\U{0C}' => dst := dst + "\\f";
        case '\n' => dst := dst + "\\n";
        case '\r' => dst := dst + "\\r";
        case '\t' => dst := dst + "\\t";
        case _ =>
          if c == '\\' || c == '#' || c == '=' || c == ':' {
            dst := dst + ['\\'];
          }
          if c < ' ' {
            dst := dst + ['\\', 'x', '0', '0', HexChar(c as int / 16), HexChar(c as int % 16)];
          } else {
            dst := dst + [c];
          }
      }
    }
    assert src[..i] == src;
  }

  /** An INI text takes two characters for a control character that has a letter, a backslash and the
      three characters with a meaning in INI files, six for other control characters, and leaves every
      other character as it is. */
  lemma IniUnchangedIff(s: string)
    ensures IniEscape(s) == s <==> forall c :: c in s ==> c >= ' ' && c !in ['\\', '#', '=', ':']
    ensures forall c :: IniChar(c) == [c]
                        || (IniChar(c)[0] == '\\'
                            && |IniChar(c)| == if c < ' ' && c !in [BS, FF, '\n', '\r', '\t'] then 6 else 2)
  {
    var special, letters := ['\\', '#', '=', ':'], [BS, FF, '\n', '\r', '\t'];
    assert special[0] == '\\' && special[1] == '#' && special[2] == '=' && special[3] == ':';
    assert letters[0] == BS && letters[1] == FF && letters[2] == '\n' && letters[3] == '\r' && letters[4] == '\t';
    assert forall c :: IniChar(c) == [c] <==> c >= ' ' && c !in special;
    MapUnchangedIff(IniChar, s);
  }

  lemma IniFirstIs(c: char, t: string)
    ensures IniFirst(IniChar(c) + t) == (c, |IniChar(c)|)
  {
  }

  lemma {:induction false} IniReadsBack(s: string)
    ensures IniUnescape(IniEscape(s)) == s
    decreases |s|
  {
    if s != [] {
      var e := IniEscape(s[1..]);
      IniReadsBack(s[1..]);
      IniFirstIs(s[0], e);
      assert (IniChar(s[0]) + e)[|IniChar(s[0])|..] == e;
      assert s == [s[0]] + s[1..];
    }
  }

  /** Splits a line at the first '=' that is not escaped. */
  function SplitLine(s: string): Option<(string, string)>
    decreases |s|
  {
    if s == [] || s[0] == '\n' then None
    else if s[0] == '=' then Some(([], s[1..]))
    else
      var n := IniFirst(s).1;
      var r := SplitLine(s[n..]);
      if r.None? then None else Some((s[..n] + r.value.0, r.value.1))
  }

  lemma {:induction false} SplitAfterKey(key: string, t: string)
    ensures SplitLine(IniEscape(key) + (['='] + t)) == Some((IniEscape(key), t))
    decreases |key|
  {
    if key == [] {
      assert IniEscape(key) + (['='] + t) == ['='] + t;
      assert (['='] + t)[1..] == t;
    } else {
      var tail := IniEscape(key[1..]) + (['='] + t);
      SplitAfterKey(key[1..], t);
      IniFirstIs(key[0], tail);
      assert IniEscape(key) + (['='] + t) == IniChar(key[0]) + tail;
      var n := |IniChar(key[0])|;
      assert (IniChar(key[0]) + tail)[n..] == tail && (IniChar(key[0]) + tail)[..n] == IniChar(key[0]);
    }
  }

  /** An INI line key=value, whatever the key and the value, splits at its '=' and both sides read
      back; the line has no line break inside. */
  lemma IniLineReadsBack(key: string, value: string)
    ensures var r := SplitLine(IniEscape(key) + (['='] + IniEscape(value)));
            r.Some? && IniUnescape(r.value.0) == key && IniUnescape(r.value.1) == value
    ensures '\n' !in IniEscape(key) && '\n' !in IniEscape(value)
  {
    SplitAfterKey(key, IniEscape(value));
    IniReadsBack(key);
    IniReadsBack(value);
    NoLineBreak(key);
    NoLineBreak(value);
  }

  lemma {:induction false} NoLineBreak(s: string)
    ensures '\n' !in IniEscape(s)
    decreases |s|
  {
    if s != [] {
      NoLineBreak(s[1..]);
      assert '\n' !in IniChar(s[0]);
    }
  }
}
