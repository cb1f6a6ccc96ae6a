/** show_formats_devices: prints the names of the muxers and demuxers in order without sorting, by
    scanning both lists again for each line. */
module FormatList {
  import opened Wrappers

  datatype Format = Format(name: string, long_name: string, device: bool)
  datatype Line = Line(decode: bool, encode: bool, name: string, long_name: string)

  /** strcmp(a, b) < 0 */
  predicate Less(a: string, b: string) {
    b != [] && (a == [] || a[0] < b[0] || (a[0] == b[0] && Less(a[1..], b[1..])))
  }

  /** The order is that of the first difference, with an end before any character. */
  lemma {:induction false} LessIff(a: string, b: string)
    ensures Less(a, b) <==> exists k :: 0 <= k <= |a| && DiffersAt(a, b, k)
    decreases |a|
  {
    if b != [] && a != [] && a[0] == b[0] {
      LessIff(a[1..], b[1..]);
      assert forall k :: 0 <= k <= |a| - 1 ==> (DiffersAt(a[1..], b[1..], k) <==> DiffersAt(a, b, k + 1)) by {
        forall k | 0 <= k <= |a| - 1 ensures DiffersAt(a[1..], b[1..], k) <==> DiffersAt(a, b, k + 1) {
          NextDiffers(a, b, k);
        }
      }
      if k :| 0 <= k <= |a| && DiffersAt(a, b, k) {
        assert k > 0 && DiffersAt(a[1..], b[1..], k - 1);
      }
    } else {
      assert DiffersAt(a, b, 0) <==> Less(a, b);
    }
  }

  // The names agree up to position `k`, where `a` ends or has the smaller character.
  predicate DiffersAt(a: string, b: string, k: nat) {
    k <= |a| && k < |b| && a[..k] == b[..k] && (k == |a| || a[k] < b[k])
  }

  lemma NextDiffers(a: string, b: string, k: nat)
    requires a != [] && b != [] && a[0] == b[0]
    ensures DiffersAt(a[1..], b[1..], k) <==> DiffersAt(a, b, k + 1)
  {
    if k < |a| && k < |b| {
      assert a[..k + 1] == [a[0]] + a[1..][..k] && b[..k + 1] == [b[0]] + b[1..][..k];
      assert a[1..][..k] == a[..k + 1][1..] && b[1..][..k] == b[..k + 1][1..];
    }
  }

  lemma {:induction false} LessTotal(a: string, b: string)
    ensures Less(a, b) || a == b || Less(b, a)
    ensures !(Less(a, b) && (a == b || Less(b, a)))
    decreases |a|
  {
    if a != [] && b != [] {
      LessTotal(a[1..], b[1..]);
      assert a == [a[0]] + a[1..] && b == [b[0]] + b[1..];
    }
  }

  lemma {:induction false} LessTransitive(a: string, b: string, c: string)
    requires Less(a, b) && Less(b, c)
    ensures Less(a, c)
    decreases |a|
  {
    if a != [] && a[0] == b[0] == c[0] {
      LessTransitive(a[1..], b[1..], c[1..]);
    }
  }

  predicate Shown(f: Format, deviceOnly: bool) {
    f.device || !deviceOnly
  }

  /** The list offers `name`, the device filter applied. */
  predicate Offers(list: seq<Format>, name: string, deviceOnly: bool) {
    exists i :: 0 <= i < |list| && Shown(list[i], deviceOnly) && list[i].name == name
  }

  /** `f` is in the list and no shown format before it has its name. */
  ghost predicate FirstOffer(list: seq<Format>, f: Format, deviceOnly: bool) {
    exists k :: 0 <= k < |list| && list[k] == f && Shown(f, deviceOnly)
      && forall i :: 0 <= i < k && Shown(list[i], deviceOnly) ==> list[i].name != f.name
  }

  /** No shown format of the list has a name above `last` and below `name`. */
  ghost predicate NoneBetween(list: seq<Format>, last: string, name: string, deviceOnly: bool) {
    forall i :: 0 <= i < |list| && Shown(list[i], deviceOnly) && Less(last, list[i].name) ==> !Less(list[i].name, name)
  }

  ghost predicate NoneAbove(list: seq<Format>, last: string, deviceOnly: bool) {
    forall i :: 0 <= i < |list| && Shown(list[i], deviceOnly) ==> !Less(last, list[i].name)
  }

  /** The running variables of one scan, after the formats `mux` and `dem` were looked at. */
  ghost predicate ScanOk(best: Option<Format>, encode: bool, decode: bool,
                         mux: seq<Format>, dem: seq<Format>, last: string, deviceOnly: bool) {
    match best
    case None => !encode && !decode && NoneAbove(mux, last, deviceOnly) && NoneAbove(dem, last, deviceOnly)
    case Some(f) =>
      && Less(last, f.name)
      && NoneBetween(mux, last, f.name, deviceOnly) && NoneBetween(dem, last, f.name, deviceOnly)
      && (encode <==> Offers(mux, f.name, deviceOnly)) && (decode <==> Offers(dem, f.name, deviceOnly))
      && FirstOffer(if encode then mux else dem, f, deviceOnly)
  }

  lemma OffersGrows(list: seq<Format>, f: Format, name: string, deviceOnly: bool)
    ensures Offers(list + [f], name, deviceOnly) <==>
            Offers(list, name, deviceOnly) || (Shown(f, deviceOnly) && f.name == name)
  {
    var list' := list + [f];
    if i :| 0 <= i < |list| && Shown(list[i], deviceOnly) && list[i].name == name {
      assert list'[i] == list[i];
    }
    assert list'[|list|] == f;
  }

  lemma FirstOfferGrows(list: seq<Format>, f: Format, g: Format, deviceOnly: bool)
    requires FirstOffer(list, g, deviceOnly)
    ensures FirstOffer(list + [f], g, deviceOnly)
  {
    var k :| 0 <= k < |list| && list[k] == g && Shown(g, deviceOnly)
      && forall i :: 0 <= i < k && Shown(list[i], deviceOnly) ==> list[i].name != g.name;
    assert (list + [f])[k] == g;
  }

  // A new least name: nothing offered it before.
  lemma NewBest(list: seq<Format>, best: Option<Format>, f: Format, last: string, deviceOnly: bool)
    requires Less(last, f.name) && (best.Some? ==> Less(f.name, best.value.name))
    requires if best.None? then NoneAbove(list, last, deviceOnly) else NoneBetween(list, last, best.value.name, deviceOnly)
    ensures !Offers(list, f.name, deviceOnly) && NoneBetween(list, last, f.name, deviceOnly)
  {
    forall i | 0 <= i < |list| && Shown(list[i], deviceOnly) && Less(last, list[i].name)
      ensures !Less(list[i].name, f.name)
    {
      if Less(list[i].name, f.name) && best.Some? {
        LessTransitive(list[i].name, f.name, best.value.name);
      }
    }
  }

  // One round of a scan loop; `muxer` tells which of the two.
  lemma ScanStep(best: Option<Format>, encode: bool, decode: bool, mux: seq<Format>, dem: seq<Format>,
                 last: string, deviceOnly: bool, f: Format, muxer: bool)
    requires ScanOk(best, encode, decode, mux, dem, last, deviceOnly) && (muxer ==> dem == [])
    ensures var better := Shown(f, deviceOnly) && (best.None? || Less(f.name, best.value.name)) && Less(last, f.name);
            var best' := if better then Some(f) else best;
            var encode' := if better then muxer else encode;
            var decode' := decode || (!muxer && Shown(f, deviceOnly) && best'.Some? && f.name == best'.value.name);
            ScanOk(best', encode', decode', if muxer then mux + [f] else mux, if muxer then dem else dem + [f],
                   last, deviceOnly)
  {
    if Shown(f, deviceOnly) && (best.None? || Less(f.name, best.value.name)) && Less(last, f.name) {
      NewBest(mux, best, f, last, deviceOnly);
      NewBest(dem, best, f, last, deviceOnly);
      BestFound(mux, dem, last, deviceOnly, f, muxer);
    } else if best.Some? {
      BestKept(encode, decode, mux, dem, last, deviceOnly, best.value, f, muxer);
    }
  }

  lemma BestFound(mux: seq<Format>, dem: seq<Format>, last: string, deviceOnly: bool, f: Format, muxer: bool)
    requires Shown(f, deviceOnly) && Less(last, f.name)
    requires !Offers(mux, f.name, deviceOnly) && NoneBetween(mux, last, f.name, deviceOnly)
    requires !Offers(dem, f.name, deviceOnly) && NoneBetween(dem, last, f.name, deviceOnly)
    ensures ScanOk(Some(f), muxer, !muxer, if muxer then mux + [f] else mux, if muxer then dem else dem + [f], last,
                   deviceOnly)
  {
    var list := if muxer then mux else dem;
    OffersGrows(list, f, f.name, deviceOnly);
    LessTotal(f.name, f.name);
    assert (list + [f])[|list|] == f;
    assert FirstOffer(list + [f], f, deviceOnly);
  }

  lemma BestKept(encode: bool, decode: bool, mux: seq<Format>, dem: seq<Format>, last: string, deviceOnly: bool,
                 best: Format, f: Format, muxer: bool)
    requires ScanOk(Some(best), encode, decode, mux, dem, last, deviceOnly) && (muxer ==> dem == [])
    requires !(Shown(f, deviceOnly) && Less(f.name, best.name) && Less(last, f.name))
    ensures ScanOk(Some(best), encode, decode || (!muxer && Shown(f, deviceOnly) && f.name == best.name),
                   if muxer then mux + [f] else mux, if muxer then dem else dem + [f], last, deviceOnly)
  {
    var list := if muxer then mux else dem;
    OffersGrows(list, f, best.name, deviceOnly);
    LessTotal(best.name, best.name);
    if encode == muxer {
      FirstOfferGrows(list, f, best, deviceOnly);
    }
  }

  /** The two inner loops, for one line: the least name above the last one, with its flags. */
  method NextLine(muxers: seq<Format>, demuxers: seq<Format>, last_name: string, deviceOnly: bool)
    returns (line: Option<Line>)
    ensures line.None? ==> NoneAbove(muxers, last_name, deviceOnly) && NoneAbove(demuxers, last_name, deviceOnly)
    ensures line.Some? ==>
              && Less(last_name, line.value.name) && LineOk(muxers, demuxers, line.value, deviceOnly)
              && NoneBetween(muxers, last_name, line.value.name, deviceOnly)
              && NoneBetween(demuxers, last_name, line.value.name, deviceOnly)
  {
    var best, encode := ScanMuxers(muxers, last_name, deviceOnly);  // best: name and long_name
    var decode;
    best, encode, decode := ScanDemuxers(muxers, demuxers, last_name, deviceOnly, best, encode);
    if best.None? {
      return None;
    }
    line := Some(Line(decode, encode, best.value.name, best.value.long_name));
  }

  method ScanMuxers(muxers: seq<Format>, last_name: string, deviceOnly: bool) returns (best: Option<Format>, encode: bool)
    ensures ScanOk(best, encode, false, muxers, [], last_name, deviceOnly)
  {
    best, encode := None, false;
    var i := 0;
    while i < |muxers|
      invariant 0 <= i <= |muxers|
      invariant ScanOk(best, encode, false, muxers[..i], [], last_name, deviceOnly)
    {
      var ofmt := muxers[i];
      ScanStep(best, encode, false, muxers[..i], [], last_name, deviceOnly, ofmt, true);
      assert muxers[..i + 1] == muxers[..i] + [ofmt];
      i := i + 1;
      if !ofmt.device && deviceOnly {
        continue;
      }
      if (best.None? || Less(ofmt.name, best.value.name)) && Less(last_name, ofmt.name) {
        best := Some(ofmt);
        encode := true;
      }
    }
    assert muxers[..i] == muxers;
  }

  method ScanDemuxers(muxers: seq<Format>, demuxers: seq<Format>, last_name: string, deviceOnly: bool,
                      found: Option<Format>, encodes: bool)
    returns (best: Option<Format>, encode: bool, decode: bool)
    requires ScanOk(found, encodes, false, muxers, [], last_name, deviceOnly)
    ensures ScanOk(best, encode, decode, muxers, demuxers, last_name, deviceOnly)
  {
    best, encode, decode := found, encodes, false;
    var i := 0;
    while i < |demuxers|
      invariant 0 <= i <= |demuxers|
      invariant ScanOk(best, encode, decode, muxers, demuxers[..i], last_name, deviceOnly)
    {
      var ifmt := demuxers[i];
      ScanStep(best, encode, decode, muxers, demuxers[..i], last_name, deviceOnly, ifmt, false);
      assert demuxers[..i + 1] == demuxers[..i] + [ifmt];
      i := i + 1;
      if !ifmt.device && deviceOnly {
        continue;
      }
      if (best.None? || Less(ifmt.name, best.value.name)) && Less(last_name, ifmt.name) {
        best := Some(ifmt);
        encode := false;
      }
      if best.Some? && ifmt.name == best.value.name {
        decode := true;
      }
    }
    assert demuxers[..i] == demuxers;
  }

  /** The flags tell which list offers the name; the long name is the first one offered with it,
      a muxer's if there is one. */
  ghost predicate LineOk(muxers: seq<Format>, demuxers: seq<Format>, line: Line, deviceOnly: bool) {
    && (line.decode <==> Offers(demuxers, line.name, deviceOnly))
    && (line.encode <==> Offers(muxers, line.name, deviceOnly))
    && exists f :: FirstOffer(if line.encode then muxers else demuxers, f, deviceOnly)
                   && f.name == line.name && f.long_name == line.long_name
  }

  /** A name that is listed at all: it sorts after "000" and one of the lists offers it. */
  predicate Listed(muxers: seq<Format>, demuxers: seq<Format>, name: string, deviceOnly: bool) {
    Less("000", name) && (Offers(muxers, name, deviceOnly) || Offers(demuxers, name, deviceOnly))
  }

  function NamesAbove(list: seq<Format>, last: string): set<string> {
    set i | 0 <= i < |list| && Less(last, list[i].name) :: list[i].name
  }

  // The names above a greater bound are fewer.
  lemma AboveShrinks(list: seq<Format>, last: string, name: string)
    requires Less(last, name) && exists i :: 0 <= i < |list| && list[i].name == name
    ensures NamesAbove(list, name) < NamesAbove(list, last)
  {
    LessTotal(name, name);
    assert name in NamesAbove(list, last);
    forall n | n in NamesAbove(list, name) ensures n in NamesAbove(list, last) {
      LessTransitive(last, name, n);
    }
  }

  function LastName(lines: seq<Line>): string {
    if lines == [] then "000" else lines[|lines| - 1].name
  }

  predicate Has(lines: seq<Line>, name: string) {
    exists i :: 0 <= i < |lines| && lines[i].name == name
  }

  /** The lines so far: ascending, correct, and none missing up to the last. */
  ghost predicate LinesOk(muxers: seq<Format>, demuxers: seq<Format>, lines: seq<Line>, deviceOnly: bool) {
    && (lines != [] ==> Less("000", LastName(lines)))
    && (forall i, j :: 0 <= i < j < |lines| ==> Less(lines[i].name, lines[j].name))
    && (forall i :: 0 <= i < |lines| ==> Listed(muxers, demuxers, lines[i].name, deviceOnly))
    && (forall i :: 0 <= i < |lines| ==> LineOk(muxers, demuxers, lines[i], deviceOnly))
    && (forall n :: Listed(muxers, demuxers, n, deviceOnly) && !Less(LastName(lines), n) ==> Has(lines, n))
  }

  lemma LinesGrow(muxers: seq<Format>, demuxers: seq<Format>, lines: seq<Line>, line: Line, deviceOnly: bool)
    requires LinesOk(muxers, demuxers, lines, deviceOnly)
    requires Less(LastName(lines), line.name) && LineOk(muxers, demuxers, line, deviceOnly)
    requires NoneBetween(muxers, LastName(lines), line.name, deviceOnly)
    requires NoneBetween(demuxers, LastName(lines), line.name, deviceOnly)
    ensures LinesOk(muxers, demuxers, lines + [line], deviceOnly)
  {
    var lines' := lines + [line];
    StillAscending(lines, line);
    OfferedByOne(muxers, demuxers, line, deviceOnly);
    forall n | Listed(muxers, demuxers, n, deviceOnly) && !Less(line.name, n)
      ensures Has(lines', n)
    {
      NotMissed(muxers, demuxers, lines, line, deviceOnly, n);
    }
  }

  lemma StillAscending(lines: seq<Line>, line: Line)
    requires lines != [] ==> Less("000", LastName(lines))
    requires forall i, j :: 0 <= i < j < |lines| ==> Less(lines[i].name, lines[j].name)
    requires Less(LastName(lines), line.name)
    ensures LastName(lines + [line]) == line.name && Less("000", line.name)
    ensures var s := lines + [line]; forall i, j :: 0 <= i < j < |s| ==> Less(s[i].name, s[j].name)
  {
    if lines != [] {
      LessTransitive("000", LastName(lines), line.name);
    }
    forall i | 0 <= i < |lines| ensures Less(lines[i].name, line.name) {
      if i < |lines| - 1 {
        LessTransitive(lines[i].name, LastName(lines), line.name);
      }
    }
  }

  lemma NotMissed(muxers: seq<Format>, demuxers: seq<Format>, lines: seq<Line>, line: Line, deviceOnly: bool, n: string)
    requires LinesOk(muxers, demuxers, lines, deviceOnly)
    requires NoneBetween(muxers, LastName(lines), line.name, deviceOnly)
    requires NoneBetween(demuxers, LastName(lines), line.name, deviceOnly)
    requires Listed(muxers, demuxers, n, deviceOnly) && !Less(line.name, n)
    ensures Has(lines + [line], n)
  {
    var lines' := lines + [line];
    LessTotal(n, line.name);
    if n == line.name {
      assert lines'[|lines|].name == n;
    } else {
      var i :| 0 <= i < |lines| && lines[i].name == n;
      assert lines'[i].name == n;
    }
  }

  lemma OfferedByOne(muxers: seq<Format>, demuxers: seq<Format>, line: Line, deviceOnly: bool)
    requires LineOk(muxers, demuxers, line, deviceOnly)
    ensures Offers(muxers, line.name, deviceOnly) || Offers(demuxers, line.name, deviceOnly)
    ensures exists i :: 0 <= i < |muxers + demuxers| && (muxers + demuxers)[i].name == line.name
  {
    if line.encode {
      var i :| 0 <= i < |muxers| && Shown(muxers[i], deviceOnly) && muxers[i].name == line.name;
      assert (muxers + demuxers)[i].name == line.name;
    } else {
      var k :| 0 <= k < |demuxers| && demuxers[k].name == line.name && Shown(demuxers[k], deviceOnly);
      assert (muxers + demuxers)[|muxers| + k].name == line.name;
    }
  }

  lemma NoneMissing(muxers: seq<Format>, demuxers: seq<Format>, lines: seq<Line>, deviceOnly: bool)
    requires LinesOk(muxers, demuxers, lines, deviceOnly)
    requires NoneAbove(muxers, LastName(lines), deviceOnly) && NoneAbove(demuxers, LastName(lines), deviceOnly)
    ensures forall n :: Listed(muxers, demuxers, n, deviceOnly) <==> Has(lines, n)
  {
    forall n | Listed(muxers, demuxers, n, deviceOnly) ensures Has(lines, n) {
      assert !Less(LastName(lines), n);
    }
  }

  /** show_formats_devices: every listed name once, in strictly ascending order, with its flags. */
  method ShowFormats(muxers: seq<Format>, demuxers: seq<Format>, deviceOnly: bool) returns (lines: seq<Line>)
    ensures forall i, j :: 0 <= i < j < |lines| ==> Less(lines[i].name, lines[j].name)
    ensures forall n :: Listed(muxers, demuxers, n, deviceOnly) <==> Has(lines, n)
    ensures forall i :: 0 <= i < |lines| ==> LineOk(muxers, demuxers, lines[i], deviceOnly)
  {
    lines := [];
    var last_name := "000";
    while true
      invariant last_name == LastName(lines)
      invariant LinesOk(muxers, demuxers, lines, deviceOnly)
      decreases NamesAbove(muxers + demuxers, last_name)
    {
      var line := NextLine(muxers, demuxers, last_name, deviceOnly);
      if line.None? {
        NoneMissing(muxers, demuxers, lines, deviceOnly);
        return;
      }
      LinesGrow(muxers, demuxers, lines, line.value, deviceOnly);
      OfferedByOne(muxers, demuxers, line.value, deviceOnly);
      AboveShrinks(muxers + demuxers, last_name, line.value.name);
      lines := lines + [line.value];
      last_name := line.value.name;
    }
  }
}
