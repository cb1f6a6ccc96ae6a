/** JSON texts: the escaping of ffprobe's JSON writer and a reader for the grammar of RFC 8259,
    section 2 (structure) and section 7 (strings), with integers for numbers. */
module Json {
  import opened Decimal
  import opened Text
  import opened Wrappers

  datatype Json =
    | JString(s: string)
    | JInt(n: int)
    | JObject(members: Members)
    | JArray(elements: Elements)

  // members in the order of the text
  datatype Members = NoMember | Member(key: string, value: Json, rest: Members)
  datatype Elements = NoElement | Element(value: Json, rest: Elements)

  // ---------------------------------------------------------------- escaping

  /** One character of json_escape_str. */
  function EscapeChar(c: char): string {
    if c == '"' then "\\\""
    else if c == '\\' then "\\\\"
    else if c == '\U{08}' then "\\b"
    else if c == '\U{0C}' then "\\f"
    else if c == '\n' then "\\n"
    else if c == '\r' then "\\r"
    else if c == '\t' then "\\t"
    else if c < ' ' then ['\\', 'u', '0', '0', HexChar(c as int / 16), HexChar(c as int % 16)]
    else [c]
  }

  function Escape(s: string): string {
    if s == [] then [] else EscapeChar(s[0]) + Escape(s[1..])
  }

  lemma {:induction false} EscapeAppend(s: string, c: char)
    ensures Escape(s + [c]) == Escape(s) + EscapeChar(c)
    decreases |s|
  {
    if s == [] {
      assert [c][1..] == [] && Escape([c]) == EscapeChar(c) + [];
    } else {
      assert (s + [c])[1..] == s[1..] + [c];
      EscapeAppend(s[1..], c);
    }
  }

  predicate NeedsEscape(c: char) {
    c < ' ' || c == '"' || c == '\\'
  }

  /** What needs no escape stays one character; a quote, a backslash and the five control characters that
      have a letter take two, any other control character six. */
  lemma EscapeLength(c: char)
    ensures !NeedsEscape(c) ==> EscapeChar(c) == [c]
    ensures NeedsEscape(c) ==>
              EscapeChar(c)[0] == '\\'
              && |EscapeChar(c)| == if c in ['"', '\\', '\U{08}', '\U{0C}', '\n', '\r', '\t'] then 2 else 6
  {
    var letters := ['"', '\\', '\U{08}', '\U{0C}', '\n', '\r', '\t'];
    assert letters[0] == '"' && letters[1] == '\\' && letters[2] == '\U{08}' && letters[3] == '\U{0C}';
    assert letters[4] == '\n' && letters[5] == '\r' && letters[6] == '\t';
  }

  /** Exactly strings of which no character needs an escape are printed as they are. */
  lemma {:induction false} UnchangedIff(s: string)
    ensures Escape(s) == s <==> forall i :: 0 <= i < |s| ==> !NeedsEscape(s[i])
    ensures |Escape(s)| >= |s| && (|Escape(s)| == |s| ==> Escape(s) == s)
    decreases |s|
  {
    if s != [] {
      UnchangedIff(s[1..]);
      EscapeLength(s[0]);
      HeadTail(s);
      assert (forall i :: 0 <= i < |s| ==> !NeedsEscape(s[i]))
        <==> !NeedsEscape(s[0]) && forall i :: 0 <= i < |s[1..]| ==> !NeedsEscape(s[1..][i]) by {
        if !NeedsEscape(s[0]) && forall i :: 0 <= i < |s[1..]| ==> !NeedsEscape(s[1..][i]) {
          forall i | 0 <= i < |s| ensures !NeedsEscape(s[i]) {
            assert i > 0 ==> s[i] == s[1..][i - 1];
          }
        }
      }
    }
  }

  // json_escape and json_subst
  const JSON_ESCAPE: string := ['"', '\\', '\U{08}', '\U{0C}', '\n', '\r', '\t']
  const JSON_SUBST: string := ['"', '\\', 'b', 'f', 'n', 'r', 't']

  /** json_escape_str */
  method JsonEscapeStr(src: string) returns (dst: string)
    ensures dst == Escape(src)
  {
    dst := [];
    var p := 0;
    while p < |src|
      invariant 0 <= p <= |src| && dst == Escape(src[..p])
    {
      var c := src[p];
      EscapeAppend(src[..p], c);
      assert src[..p + 1] == src[..p] + [c];
      var s := StrChr(JSON_ESCAPE, c);
      SubstIsEscape(c, s);
      if s < |JSON_ESCAPE| {
        dst := dst + ['\\'] + [JSON_SUBST[s]];
      } else if c < ' ' {
        dst := dst + ['\\', 'u', '0', '0', HexChar(c as int / 16), HexChar(c as int % 16)];
      } else {
        dst := dst + [c];
      }
      p := p + 1;
    }
    assert src[..p] == src;
  }

  // The two tables agree with EscapeChar.
  lemma SubstIsEscape(c: char, s: nat)
    requires s <= |JSON_ESCAPE| && (s < |JSON_ESCAPE| ==> JSON_ESCAPE[s] == c)
    requires forall k :: 0 <= k < s ==> JSON_ESCAPE[k] != c
    ensures s < |JSON_ESCAPE| ==> EscapeChar(c) == ['\\'] + [JSON_SUBST[s]]
    ensures s == |JSON_ESCAPE| ==> c !in JSON_ESCAPE
  {
    assert JSON_ESCAPE[0] == '"' && JSON_ESCAPE[1] == '\\' && JSON_ESCAPE[2] == '\U{08}' && JSON_ESCAPE[3] == '\U{0C}';
    assert JSON_ESCAPE[4] == '\n' && JSON_ESCAPE[5] == '\r' && JSON_ESCAPE[6] == '\t';
  }

  /** strchr: the first position of `c`, the length when there is none. */
  method StrChr(s: string, c: char) returns (i: nat)
    ensures i <= |s| && (i < |s| ==> s[i] == c) && forall k :: 0 <= k < i ==> s[k] != c
  {
    i := 0;
    while i < |s|
      invariant 0 <= i <= |s| && forall k :: 0 <= k < i ==> s[k] != c
    {
      if s[i] == c {
        return;
      }
      i := i + 1;
    }
  }

  // ---------------------------------------------------------------- reading

  predicate IsWs(c: char) {
    c == ' ' || c == '\t' || c == '\n' || c == '\r'
  }

  function SkipWs(s: string): (r: string)
    ensures |r| <= |s|
  {
    if s != [] && IsWs(s[0]) then SkipWs(s[1..]) else s
  }

  function HexValue(c: char): Option<nat> {
    if '0' <= c <= '9' then Some(c as int - '0' as int)
    else if 'a' <= c <= 'f' then Some(c as int - 'a' as int + 10)
    else if 'A' <= c <= 'F' then Some(c as int - 'A' as int + 10)
    else None
  }

  /** The character after a backslash stands for. */
  function Unescaped(c: char): Option<char> {
    match c
    case '"' => Some('"')
    case '\\' => Some('\\')
    case '/' => Some('/')
    case 'b' => Some('\U{08}')
    case 'f' => Some('\U{0C}')
    case 'n' => Some('\n')
    case 'r' => Some('\r')
    case 't' => Some('\t')
    case _ => None
  }

  function Hex4(s: string): Option<char>
    requires |s| >= 4
  {
    var a, b, c, d := HexValue(s[0]), HexValue(s[1]), HexValue(s[2]), HexValue(s[3]);
    if a.None? || b.None? || c.None? || d.None? then None
    else
      var n := ((a.value * 16 + b.value) * 16 + c.value) * 16 + d.value;
      if n < 0xD800 then Some(n as char) else None  // no surrogate pairs
  }

  /** The rest of a string after its opening quote, and what follows the closing quote. */
  function ReadChars(s: string): (r: Option<(string, string)>)
    ensures r.Some? ==> |r.value.1| < |s|
    decreases |s|
  {
    if s == [] || s[0] < ' ' then None
    else if s[0] == '"' then Some(([], s[1..]))
    else if s[0] != '\\' then Prepend(s[0], ReadChars(s[1..]))
    else if |s| >= 6 && s[1] == 'u' then
      var c := Hex4(s[2..]);
      if c.None? then None else Prepend(c.value, ReadChars(s[6..]))
    else if |s| >= 2 && Unescaped(s[1]).Some? then Prepend(Unescaped(s[1]).value, ReadChars(s[2..]))
    else None
  }

  /** A number without fraction and exponent. */
  function ReadInt(s: string): (r: Option<(int, string)>)
    ensures r.Some? ==> |r.value.1| < |s|
  {
    if s != [] && s[0] == '-' then
      var r := ReadNat(s[1..]);
      if r.None? then None else Some((0 - r.value.0, r.value.1))
    else
      var r := ReadNat(s);
      if r.None? then None else Some((r.value.0, r.value.1))
  }

  function ReadNat(s: string): (r: Option<(nat, string)>)
    ensures r.Some? ==> |r.value.1| < |s|
  {
    if s == [] || !IsDigit(s[0]) then None
    else if s[0] == '0' then Some((0, s[1..]))
    else
      var r := ReadDigits(s[1..], s[0] as int - '0' as int);
      Some(r)
  }

  function Is(s: string, c: char): bool {
    s != [] && s[0] == c
  }

  /** A value and what follows it. */
  function ReadValue(s: string): (r: Option<(Json, string)>)
    ensures r.Some? ==> |r.value.1| < |s|
    decreases |s|, 1
  {
    var t := SkipWs(s);
    if t == [] then None
    else if t[0] == '"' then
      var r := ReadChars(t[1..]);
      if r.None? then None else Some((JString(r.value.0), r.value.1))
    else if t[0] == '{' then
      var u := SkipWs(t[1..]);
      if Is(u, '}') then Some((JObject(NoMember), u[1..]))
      else
        var r := ReadMembers(t[1..]);
        if r.None? then None else Some((JObject(r.value.0), r.value.1))
    else if t[0] == '[' then
      var u := SkipWs(t[1..]);
      if Is(u, ']') then Some((JArray(NoElement), u[1..]))
      else
        var r := ReadElements(t[1..]);
        if r.None? then None else Some((JArray(r.value.0), r.value.1))
    else
      var r := ReadInt(t);
      if r.None? then None else Some((JInt(r.value.0), r.value.1))
  }

  /** One or more members up to the closing brace. */
  function ReadMembers(s: string): (r: Option<(Members, string)>)
    ensures r.Some? ==> |r.value.1| < |s|
    decreases |s|, 0
  {
    var t := SkipWs(s);
    if !Is(t, '"') then None
    else
      var key := ReadChars(t[1..]);
      if key.None? then None
      else
        var u := SkipWs(key.value.1);
        if !Is(u, ':') then None
        else
          var v := ReadValue(u[1..]);
          if v.None? then None
          else
            var w := SkipWs(v.value.1);
            if Is(w, '}') then Some((Member(key.value.0, v.value.0, NoMember), w[1..]))
            else if Is(w, ',') then
              var more := ReadMembers(w[1..]);
              if more.None? then None else Some((Member(key.value.0, v.value.0, more.value.0), more.value.1))
            else None
  }

  /** One or more elements up to the closing bracket. */
  function ReadElements(s: string): (r: Option<(Elements, string)>)
    ensures r.Some? ==> |r.value.1| < |s|
    decreases |s|, 2
  {
    var v := ReadValue(s);
    if v.None? then None
    else
      var w := SkipWs(v.value.1);
      if Is(w, ']') then Some((Element(v.value.0, NoElement), w[1..]))
      else if Is(w, ',') then
        var more := ReadElements(w[1..]);
        if more.None? then None else Some((Element(v.value.0, more.value.0), more.value.1))
      else None
  }

  /** A JSON text: one value, white space around it, nothing else. */
  function ReadText(s: string): Option<Json> {
    var r := ReadValue(s);
    if r.Some? && SkipWs(r.value.1) == [] then Some(r.value.0) else None
  }

  // ---------------------------------------------------------------- what is printed reads back

  lemma EscapeCharReads(c: char, t: string)
    ensures ReadChars(EscapeChar(c) + t) == Prepend(c, ReadChars(t))
  {
    var e := EscapeChar(c);
    Cut(e, t);
    if |e| == 6 {
      ControlCharReads(c, t);
    }
  }

  lemma ControlCharReads(c: char, t: string)
    requires |EscapeChar(c)| == 6
    ensures Hex4((EscapeChar(c) + t)[2..]) == Some(c)
  {
    var s := (EscapeChar(c) + t)[2..];
    assert s[0] == '0' && s[1] == '0';
    assert s[2] == HexChar(c as int / 16) && s[3] == HexChar(c as int % 16);
  }

  /** Every string, control characters and quotes included, reads back from its escaped form. */
  lemma {:induction false} EscapeReadsBack(s: string, t: string)
    ensures ReadChars(Escape(s) + (['"'] + t)) == Some((s, t))
    decreases |s|
  {
    var close := ['"'] + t;
    if s == [] {
      assert Escape(s) + close == close;
      Cut(['"'], t);
    } else {
      EscapeReadsBack(s[1..], t);
      EscapeCharReads(s[0], Escape(s[1..]) + close);
      Assoc(EscapeChar(s[0]), Escape(s[1..]), close);
      HeadTail(s);
    }
  }

  lemma ReadIntText(n: int, t: string)
    requires t != [] && !IsDigit(t[0])
    ensures ReadInt(IntText(n) + t) == Some((n, t))
  {
    if n < 0 {
      ReadNatTextBack(-n, t);
      Assoc(['-'], NatText(-n), t);
      Cut(['-'], NatText(-n) + t);
    } else {
      ReadNatTextBack(n, t);
    }
  }

  lemma ReadNatTextBack(n: nat, t: string)
    requires t != [] && !IsDigit(t[0])
    ensures ReadNat(NatText(n) + t) == Some((n, t))
    ensures (NatText(n) + t)[0] != '-'
  {
    ReadNatText(n, t);
    assert (NatText(n) + t)[0] == NatText(n)[0];
    if n == 0 {
      Cut(NatText(n), t);
    }
  }

  predicate AllWs(w: string) {
    forall i :: 0 <= i < |w| ==> IsWs(w[i])
  }

  lemma {:induction false} SkipOver(w: string, s: string)
    requires AllWs(w)
    ensures SkipWs(w + s) == SkipWs(s)
    decreases |w|
  {
    if w == [] {
      assert w + s == s;
    } else {
      assert (w + s)[1..] == w[1..] + s;
      SkipOver(w[1..], s);
    }
  }

  // Characters that need no escaping print as they are.
  lemma {:induction false} EscapePlain(s: string)
    requires forall i :: 0 <= i < |s| ==> s[i] >= ' ' && s[i] != '"' && s[i] != '\\'
    ensures Escape(s) == s
    decreases |s|
  {
    if s != [] {
      EscapePlain(s[1..]);
      assert s == [s[0]] + s[1..];
    }
  }
}
