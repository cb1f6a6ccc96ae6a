/** split_commandline of the ffmpeg tools: argv is split into groups of options, one group for each
    input and output file, and a group of global options. */
module CommandLine {
  import opened Wrappers

  /** `perFile` stands for any of OPT_PERFILE, OPT_SPEC and OPT_OFFSET. */
  datatype OptionDef = OptionDef(name: string, hasArg: bool, isBool: bool, isExit: bool, perFile: bool)

  /** A group of `sep` None is delimited by a bare argument, e.g. an output file name. */
  datatype GroupDef = GroupDef(name: string, sep: Option<string>)

  /** `val` is None for the missing optional argument of an OPT_EXIT option. */
  datatype Use = Use(opt: OptionDef, key: string, val: Option<string>)

  /** Options of the table, and the AVOptions that opt_default stored in the dictionaries. */
  datatype Group = Group(arg: string, opts: seq<Use>, avOpts: seq<(string, string)>)

  datatype AvAnswer = Accepted | NotFound | Invalid

  /** The tables, and what opt_default answers. */
  datatype Tables = Tables(options: seq<OptionDef>, groups: seq<GroupDef>, avOption: (string, string) -> AvAnswer)

  /** What the arguments of a command line turn out to be. */
  datatype Item =
    | DashDash
    | Bare(arg: string)
    | Separator(group: nat, sep: string, arg: string)
    | TableOption(use: Use, takesNext: bool)
    | AvOption(key: string, val: string)

  datatype Status = Ok | MissingArgument | AvError | Unrecognized

  // ---------------------------------------------------------------- lookups

  /** The name up to the first ':', where a stream specifier begins. */
  function BaseName(name: string): (base: string)
    ensures base <= name && ':' !in base && (base == name || name[|base|] == ':')
  {
    if name == [] || name[0] == ':' then [] else [name[0]] + BaseName(name[1..])
  }

  // Entry `k` is the first of that name.
  predicate IsFirst(options: seq<OptionDef>, name: string, k: nat)
    requires k < |options|
  {
    options[k].name == name && forall i :: 0 <= i < k ==> options[i].name != name
  }

  /** find_option: the first entry with that base name. */
  function FindOption(options: seq<OptionDef>, name: string): (r: Option<OptionDef>)
    ensures r.Some? ==> exists k :: 0 <= k < |options| && options[k] == r.value && IsFirst(options, BaseName(name), k)
    ensures r.None? ==> forall po :: po in options ==> po.name != BaseName(name)
  {
    if options == [] then None
    else if options[0].name == BaseName(name) then
      assert IsFirst(options, BaseName(name), 0);
      Some(options[0])
    else
      var r := FindOption(options[1..], name);
      assert forall k :: 0 <= k < |options| - 1 && IsFirst(options[1..], BaseName(name), k) ==>
               IsFirst(options, BaseName(name), k + 1);
      r
  }

  /** match_group_separator: the first group with that separator. */
  function MatchSeparator(groups: seq<GroupDef>, opt: string): (r: Option<nat>)
    ensures r.Some? ==> r.value < |groups| && groups[r.value].sep == Some(opt)
    ensures r.None? ==> forall g :: g in groups ==> g.sep != Some(opt)
    ensures r.Some? ==> forall k :: 0 <= k < r.value ==> groups[k].sep != Some(opt)
  {
    if groups == [] then None
    else if groups[0].sep == Some(opt) then Some(0)
    else
      var r := MatchSeparator(groups[1..], opt);
      if r.None? then None else Some(r.value + 1)
  }

  // ---------------------------------------------------------------- what an item stands for

  /** The elements of argv an item was read from. */
  function Source(item: Item): seq<string> {
    match item
    case DashDash => ["--"]
    case Bare(arg) => [arg]
    case Separator(_, sep, arg) => ["-" + sep, arg]
    case TableOption(use, takesNext) => ["-" + use.key] + if takesNext && use.val.Some? then [use.val.value] else []
    case AvOption(key, val) => ["-" + key, val]
  }

  function Sources(items: seq<Item>): seq<string> {
    if items == [] then [] else Sources(items[..|items| - 1]) + Source(items[|items| - 1])
  }

  predicate IsOption(s: string) {
    |s| >= 2 && s[0] == '-' && s != "--"
  }

  /** An item is what the tables make of its arguments. `afterDashes` tells that the item before it
      is `--`, `rest` what is left of argv after it. */
  ghost predicate Classified(t: Tables, item: Item, afterDashes: bool, rest: seq<string>) {
    match item
    case DashDash => true
    case Bare(arg) => arg != "--" && (afterDashes || !IsOption(arg))
    case Separator(g, sep, arg) => !afterDashes && IsOption("-" + sep) && MatchSeparator(t.groups, sep) == Some(g)
    case TableOption(use, takesNext) =>
      && !afterDashes && IsOption("-" + use.key) && MatchSeparator(t.groups, use.key).None?
      && (match FindOption(t.options, use.key)
          case Some(po) =>
            && use.opt == po && (takesNext <==> po.isExit || po.hasArg)
            && (!takesNext ==> use.val == Some("1")) && (use.val.None? ==> po.isExit && rest == [])
          case None =>
            && !takesNext && use.val == Some("0") && use.opt.isBool
            && "no" <= use.key && FindOption(t.options, use.key[2..]) == Some(use.opt)
            && (rest != [] ==> t.avOption(use.key, rest[0]).NotFound?))
    case AvOption(key, val) =>
      && !afterDashes && IsOption("-" + key) && MatchSeparator(t.groups, key).None?
      && FindOption(t.options, key).None? && t.avOption(key, val).Accepted?
  }

  /** `args` can be read with this item as the first. */
  ghost predicate ReadsAs(t: Tables, args: seq<string>, afterDashes: bool, item: Item) {
    Source(item) <= args && Classified(t, item, afterDashes, args[|Source(item)|..])
  }

  ghost predicate Unreadable(t: Tables, args: seq<string>, afterDashes: bool) {
    forall item :: !ReadsAs(t, args, afterDashes, item)
  }

  /** The item before position `i` is `--`. */
  predicate AfterDashes(items: seq<Item>, i: nat)
    requires i <= |items|
  {
    0 < i && items[i - 1].DashDash?
  }

  ghost predicate ClassifiedAt(t: Tables, items: seq<Item>, i: nat, args: seq<string>)
    requires i < |items|
  {
    var n := |Sources(items[..i])|;
    n <= |args| && ReadsAs(t, args[n..], AfterDashes(items, i), items[i])
  }

  ghost predicate AllClassified(t: Tables, items: seq<Item>, args: seq<string>) {
    forall i :: 0 <= i < |items| ==> ClassifiedAt(t, items, i, args)
  }

  /** The items are a reading of the whole of `args`. */
  ghost predicate IsReading(t: Tables, items: seq<Item>, args: seq<string>) {
    Sources(items) == args && AllClassified(t, items, args)
  }

  ghost predicate NoReading(t: Tables, args: seq<string>) {
    forall items :: !IsReading(t, items, args)
  }

  // ---------------------------------------------------------------- one reading at most

  lemma SameFirst(t: Tables, args: seq<string>, afterDashes: bool, a: Item, b: Item)
    requires ReadsAs(t, args, afterDashes, a) && ReadsAs(t, args, afterDashes, b)
    ensures a == b
  {
    var x, y := args[|Source(a)|..], args[|Source(b)|..];
    assert args[0] == Source(a)[0] == Source(b)[0];
    if a.Separator? || a.TableOption? || a.AvOption? {
      var key := KeyOf(a);
      assert args[0] == "-" + key && IsOption(args[0]);
      SameKey(t, args, afterDashes, key, b);
      if b.Separator? {
        assert args[1] == b.arg;
      } else if b.TableOption? {
        assert b.takesNext && b.use.val.Some? ==> args[1] == b.use.val.value;
        assert a.TableOption? && a.takesNext && a.use.val.Some? ==> args[1] == a.use.val.value;
      } else {
        assert args[1] == b.val;
      }
    }
  }

  function KeyOf(item: Item): string
    requires item.Separator? || item.TableOption? || item.AvOption?
  {
    match item
    case Separator(_, sep, _) => sep
    case TableOption(use, _) => use.key
    case AvOption(key, _) => key
  }

  // An option is read under its own key, not after `--`.
  lemma SameKey(t: Tables, args: seq<string>, afterDashes: bool, key: string, item: Item)
    requires ReadsAs(t, args, afterDashes, item) && args[0] == "-" + key && IsOption(args[0]) && !afterDashes
    ensures (item.Separator? || item.TableOption? || item.AvOption?) && KeyOf(item) == key
    ensures |Source(item)| <= |args|
    ensures item.AvOption? ==> args[1] == item.val
  {
    assert args[0] == Source(item)[0];
    assert ("-" + key)[1..] == key;
    if item.Separator? || item.TableOption? || item.AvOption? {
      assert args[0] == "-" + KeyOf(item);
      assert ("-" + KeyOf(item))[1..] == KeyOf(item);
    }
  }

  lemma {:induction false} SamePrefix(t: Tables, a: seq<Item>, b: seq<Item>, args: seq<string>, i: nat)
    requires AllClassified(t, a, args) && AllClassified(t, b, args) && i <= |a| && i <= |b|
    ensures a[..i] == b[..i]
    decreases i
  {
    if i > 0 {
      SamePrefix(t, a, b, args, i - 1);
      SameNext(t, a, b, args, i - 1);
      assert a[..i] == a[..i - 1] + [a[i - 1]] && b[..i] == b[..i - 1] + [b[i - 1]];
    }
  }

  lemma SameNext(t: Tables, a: seq<Item>, b: seq<Item>, args: seq<string>, i: nat)
    requires AllClassified(t, a, args) && AllClassified(t, b, args) && i < |a| && i < |b| && a[..i] == b[..i]
    ensures a[i] == b[i]
  {
    assert ClassifiedAt(t, a, i, args) && ClassifiedAt(t, b, i, args);
    assert i > 0 ==> a[i - 1] == a[..i][i - 1] == b[..i][i - 1] == b[i - 1];
    SameFirst(t, args[|Sources(a[..i])|..], AfterDashes(a, i), a[i], b[i]);
  }

  // Where an item is read there is something to read.
  lemma NoMore(t: Tables, items: seq<Item>, args: seq<string>, i: nat)
    requires AllClassified(t, items, args) && i < |items|
    ensures |Sources(items[..i])| < |args|
  {
    assert ClassifiedAt(t, items, i, args);
  }

  // After a whole reading there is nothing more.
  lemma NothingFollows(t: Tables, a: seq<Item>, b: seq<Item>, args: seq<string>)
    requires IsReading(t, a, args) && AllClassified(t, b, args)
    ensures |b| <= |a| && b == a[..|b|]
  {
    assert a[..|a|] == a;
    if |b| > |a| {
      SamePrefix(t, a, b, args, |a|);
      NoMore(t, b, args, |a|);
    }
    SamePrefix(t, a, b, args, |b|);
    assert b[..|b|] == b;
  }

  /** A command line has at most one reading. */
  lemma ReadingIsUnique(t: Tables, a: seq<Item>, b: seq<Item>, args: seq<string>)
    requires IsReading(t, a, args) && IsReading(t, b, args)
    ensures a == b
  {
    NothingFollows(t, a, b, args);
    NothingFollows(t, b, a, args);
    assert a[..|b|] == b;
  }

  // A whole reading that goes on after some items goes on with one that can be read there.
  lemma GoesOn(t: Tables, a: seq<Item>, items: seq<Item>, args: seq<string>)
    requires AllClassified(t, a, args) && |items| < |a| && items == a[..|items|]
    ensures |Sources(items)| < |args|
    ensures ReadsAs(t, args[|Sources(items)|..], AfterDashes(items, |items|), a[|items|])
  {
    assert ClassifiedAt(t, a, |items|, args);
    NoMore(t, a, args, |items|);
  }

  // Where no item can be read there is no reading.
  lemma Stuck(t: Tables, items: seq<Item>, args: seq<string>, a: seq<Item>)
    requires AllClassified(t, items, args) && |Sources(items)| < |args|
    requires Unreadable(t, args[|Sources(items)|..], AfterDashes(items, |items|))
    ensures !IsReading(t, a, args)
  {
    if IsReading(t, a, args) {
      NothingFollows(t, a, items, args);
      assert a[..|a|] == a;
      if |items| < |a| {
        GoesOn(t, a, items, args);
      }
    }
  }

  // ---------------------------------------------------------------- the groups

  /** The parse context as a value: the finished groups of each definition, the group being
      collected (its `arg` is not known yet) and the global options. */
  datatype Context = Context(groups: seq<seq<Group>>, cur: Group, global: seq<Use>)

  const NO_GROUP := Group("", [], [])

  function Begin(n: nat): Context {
    Context(seq(n, _ => []), NO_GROUP, [])
  }

  function Finish(c: Context, g: nat, arg: string): Context
    requires g < |c.groups|
  {
    Context(c.groups[g := c.groups[g] + [c.cur.(arg := arg)]], NO_GROUP, c.global)
  }

  function Add(c: Context, item: Item): Context
    requires item.Separator? ==> item.group < |c.groups|
    requires |c.groups| > 0
  {
    match item
    case DashDash => c
    case Bare(arg) => Finish(c, 0, arg)
    case Separator(g, _, arg) => Finish(c, g, arg)
    case TableOption(use, _) =>
      if use.opt.perFile then c.(cur := c.cur.(opts := c.cur.opts + [use])) else c.(global := c.global + [use])
    case AvOption(key, val) => c.(cur := c.cur.(avOpts := c.cur.avOpts + [(key, val)]))
  }

  predicate InRange(items: seq<Item>, n: nat) {
    n > 0 && forall i :: 0 <= i < |items| && items[i].Separator? ==> items[i].group < n
  }

  function Build(items: seq<Item>, n: nat): (c: Context)
    requires InRange(items, n)
    ensures |c.groups| == n
  {
    if items == [] then Begin(n) else Add(Build(items[..|items| - 1], n), items[|items| - 1])
  }

  // ---------------------------------------------------------------- the code

  class OptionParseContext {
    var groups: seq<seq<Group>>
    var cur_group: Group
    var global_opts: seq<Use>

    function Model(): Context
      reads this
    {
      Context(groups, cur_group, global_opts)
    }

    /** init_parse_context */
    constructor (n: nat)
      ensures Model() == Begin(n)
    {
      groups, cur_group, global_opts := seq(n, _ => []), NO_GROUP, [];
    }

    /** finish_group */
    method FinishGroup(group_idx: nat, arg: string)
      requires group_idx < |groups|
      modifies this
      ensures Model() == Finish(old(Model()), group_idx, arg)
    {
      var g := cur_group.(arg := arg);
      groups := groups[group_idx := groups[group_idx] + [g]];
      cur_group := NO_GROUP;
    }

    /** add_opt */
    method AddOpt(use: Use)
      modifies this
      ensures groups == old(groups)
      ensures if use.opt.perFile
              then global_opts == old(global_opts) && cur_group == old(cur_group).(opts := old(cur_group).opts + [use])
              else global_opts == old(global_opts) + [use] && cur_group == old(cur_group)
    {
      var global := !use.opt.perFile;
      if global {
        global_opts := global_opts + [use];
      } else {
        cur_group := cur_group.(opts := cur_group.opts + [use]);
      }
    }

    /** One argument that starts with '-', `opt` without it: a named separator, an option of the
        table, an AVOption or a -nofoo option. `next` is the index of the argument to read next. */
    method ReadOption(argv: seq<string>, t: Tables, opt: string, index: nat)
      returns (r: Status, next: nat, ghost item: Item)
      requires 0 < index <= |argv| && argv[index - 1] == "-" + opt && IsOption(argv[index - 1])
      requires |t.groups| == |groups| > 0
      modifies this
      ensures r.Ok? ==>
                && index <= next <= |argv| + 1
                && ReadsAs(t, argv[index - 1..], false, item) && !item.DashDash? && InRange([item], |t.groups|)
                && Source(item) == argv[index - 1..AtMost(next, |argv|)]
                && Model() == Add(old(Model()), item)
      ensures !r.Ok? ==> Model() == old(Model()) && Unreadable(t, argv[index - 1..], false)
      ensures r.MissingArgument? ==> index == |argv|
    {
      item, next := DashDash, index;
      var sep := FindSeparator(t.groups, opt);
      if sep.Some? {
        if index == |argv| {
          NoArgument(t, argv[index - 1..], opt);
          return MissingArgument, next, item;
        }
        FinishGroup(sep.value, argv[index]);
        OneArgument(argv, index, opt);
        ReadHere(t, argv, index, index + 1, Separator(sep.value, opt, argv[index]));
        return Ok, index + 1, Separator(sep.value, opt, argv[index]);
      }
      var po := LookUp(t.options, opt);
      if po.Some? {
        var val, takesNext := Some("1"), false;
        if po.value.isExit {
          val := if index < |argv| then Some(argv[index]) else None;
          next, takesNext := index + 1, true;
        } else if po.value.hasArg {
          if index == |argv| {
            NoArgument(t, argv[index - 1..], opt);
            return MissingArgument, next, item;
          }
          val := Some(argv[index]);
          next, takesNext := index + 1, true;
        }
        AddOpt(Use(po.value, opt, val));
        OneArgument(argv, index, opt);
        TableSource(argv, index, Use(po.value, opt, val), takesNext);
        ReadHere(t, argv, index, AtMost(next, |argv|), TableOption(Use(po.value, opt, val), takesNext));
        return Ok, next, TableOption(Use(po.value, opt, val), takesNext);
      }
      r, next, item := ReadOtherOption(argv, t, opt, index);
    }

    /** An option that is not in the table under its own name. */
    method ReadOtherOption(argv: seq<string>, t: Tables, opt: string, index: nat)
      returns (r: Status, next: nat, ghost item: Item)
      requires 0 < index <= |argv| && argv[index - 1] == "-" + opt && IsOption(argv[index - 1])
      requires |t.groups| == |groups| > 0
      requires MatchSeparator(t.groups, opt).None? && FindOption(t.options, opt).None?
      modifies this
      ensures r.Ok? ==>
                && index <= next <= |argv|
                && ReadsAs(t, argv[index - 1..], false, item) && !item.DashDash? && InRange([item], |t.groups|)
                && Source(item) == argv[index - 1..next]
                && Model() == Add(old(Model()), item)
      ensures !r.Ok? ==> Model() == old(Model()) && !r.MissingArgument? && Unreadable(t, argv[index - 1..], false)
    {
      item, next := DashDash, index;
      OneArgument(argv, index, opt);
      if index < |argv| {
        var ret := t.avOption(opt, argv[index]);
        if ret.Accepted? {
          cur_group := cur_group.(avOpts := cur_group.avOpts + [(opt, argv[index])]);
          ReadHere(t, argv, index, index + 1, AvOption(opt, argv[index]));
          return Ok, index + 1, AvOption(opt, argv[index]);
        } else if ret.Invalid? {
          NoOption(t, argv[index - 1..], opt);
          return AvError, next, item;
        }
      }
      r, item := ReadNegated(argv, t, opt, index);
    }

    /** A boolean option -nofoo, where -foo is in the table. */
    method ReadNegated(argv: seq<string>, t: Tables, opt: string, index: nat)
      returns (r: Status, ghost item: Item)
      requires 0 < index <= |argv| && argv[index - 1] == "-" + opt && IsOption(argv[index - 1])
      requires |t.groups| == |groups| > 0
      requires MatchSeparator(t.groups, opt).None? && FindOption(t.options, opt).None?
      requires index < |argv| ==> t.avOption(opt, argv[index]).NotFound?
      modifies this
      ensures r.Ok? ==>
                && ReadsAs(t, argv[index - 1..], false, item) && item.TableOption?
                && Source(item) == argv[index - 1..index]
                && Model() == Add(old(Model()), item)
      ensures !r.Ok? ==> r.Unrecognized? && Model() == old(Model()) && Unreadable(t, argv[index - 1..], false)
    {
      item := DashDash;
      OneArgument(argv, index, opt);
      if |opt| >= 2 && opt[0] == 'n' && opt[1] == 'o' {
        var po := LookUp(t.options, opt[2..]);
        if po.Some? && po.value.isBool {
          var use := Use(po.value, opt, Some("0"));
          AddOpt(use);
          TableSource(argv, index, use, false);
          ReadHere(t, argv, index, index, TableOption(use, false));
          return Ok, TableOption(use, false);
        }
      }
      NoOption(t, argv[index - 1..], opt);
      r := Unrecognized;
    }

    /** One argument that is not `--`: a bare one delimits a group, any other is an option. */
    method ReadArgument(argv: seq<string>, t: Tables, index: nat, afterDashes: bool)
      returns (r: Status, next: nat, ghost item: Item)
      requires 0 < index <= |argv| && argv[index - 1] != "--"
      requires |t.groups| == |groups| > 0
      modifies this
      ensures r.Ok? ==>
                && index <= next <= |argv| + 1
                && ReadsAs(t, argv[index - 1..], afterDashes, item) && !item.DashDash?
                && InRange([item], |t.groups|)
                && Source(item) == argv[index - 1..AtMost(next, |argv|)]
                && Model() == Add(old(Model()), item)
      ensures !r.Ok? ==> Model() == old(Model()) && Unreadable(t, argv[index - 1..], afterDashes)
      ensures r.MissingArgument? ==> index == |argv| && IsOption(argv[index - 1])
    {
      var opt := argv[index - 1];
      if |opt| < 2 || opt[0] != '-' || afterDashes {
        FinishGroup(0, opt);
        OneSource(argv, index, opt);
        return Ok, index, Bare(opt);
      }
      assert opt == "-" + opt[1..];
      r, next, item := ReadOption(argv, t, opt[1..], index);
    }

    /** One turn of the loop, at an argument that is not `--`. */
    method ReadNext(argv: seq<string>, t: Tables, start: nat, afterDashes: bool, ghost items: seq<Item>)
      returns (r: Status, next: nat, ghost more: seq<Item>)
      requires start < |argv| && argv[start] != "--" && Stage(argv, start, t, items, afterDashes, Model())
      modifies this
      ensures r.Ok? ==> start < next <= |argv| + 1 && Stage(argv, AtMost(next, |argv|), t, more, false, Model())
      ensures !r.Ok? ==> more == items && Model() == old(Model()) && NoReading(t, argv[1..])
      ensures r.MissingArgument? ==> start + 1 == |argv| && IsOption(argv[start])
    {
      ghost var item;
      r, next, item := ReadArgument(argv, t, start + 1, afterDashes);
      more := items;
      if r.Ok? {
        NextStage(argv, start, AtMost(next, |argv|), t, items, item, afterDashes, old(Model()));
        more := items + [item];
      } else {
        StuckStage(argv, start, t, items, afterDashes, Model());
      }
    }

    /** split_commandline. It succeeds if and only if the arguments after the program name have a
        reading; `items` is then that reading, and accounts for every argument. In any case the items
        are what the tables make of the arguments read, and the context is built from them. */
    method SplitCommandline(argv: seq<string>, t: Tables) returns (r: Status, ghost items: seq<Item>)
      requires argv != [] && |t.groups| > 0 && Model() == Begin(|t.groups|)
      modifies this
      ensures InRange(items, |t.groups|) && Model() == Build(items, |t.groups|)
      ensures AllClassified(t, items, argv[1..])
      ensures Sources(items) <= argv[1..]
      ensures r.Ok? ==> IsReading(t, items, argv[1..])
      ensures !r.Ok? ==> NoReading(t, argv[1..])
      ensures r.MissingArgument? ==> |argv| > 1 && Sources(items) == argv[1..|argv| - 1] && IsOption(argv[|argv| - 1])
    {
      items := [];
      var optindex := 1;
      var dashdash := -2;
      StageStart(argv, t);
      while optindex < |argv|
        invariant 1 <= optindex <= |argv| + 1
        invariant Stage(argv, AtMost(optindex, |argv|), t, items, dashdash == optindex, Model())
        invariant dashdash <= optindex
        decreases |argv| - optindex
      {
        ghost var start := optindex;
        var opt := argv[optindex];
        optindex := optindex + 1;
        if opt == "--" {
          DashesHere(argv, start, t, items, dashdash == start, Model());
          dashdash := optindex;
          items := items + [DashDash];
        } else {
          r, optindex, items := ReadNext(argv, t, optindex - 1, dashdash + 1 == optindex, items);
          if !r.Ok? {
            StageTells(argv, start, t, items, dashdash == start, Model());
            return;
          }
        }
      }
      r := Ok;
      StageTells(argv, |argv|, t, items, dashdash == optindex, Model());
    }
  }

  lemma DashesRead(t: Tables, args: seq<string>, afterDashes: bool)
    requires args != [] && args[0] == "--"
    ensures ReadsAs(t, args, afterDashes, DashDash)
  {
    assert args == ["--"] + args[1..];
  }

  /** The items read from argv[1..n], whether the last of them is `--`, and the context built from them. */
  ghost predicate Stage(argv: seq<string>, n: nat, t: Tables, items: seq<Item>, afterDashes: bool, m: Context) {
    && |t.groups| > 0 && Parsed(argv, n, t, items)
    && m == Build(items, |t.groups|) && afterDashes == AfterDashes(items, |items|)
  }

  lemma NextStage(argv: seq<string>, start: nat, next: nat, t: Tables, items: seq<Item>, item: Item,
                  afterDashes: bool, m: Context)
    requires start < next <= |argv| && Stage(argv, start, t, items, afterDashes, m)
    requires |Source(item)| == next - start && ReadsAs(t, argv[start..], afterDashes, item)
    ensures |m.groups| == |t.groups| && InRange([item], |t.groups|)
    ensures Stage(argv, next, t, items + [item], item.DashDash?, Add(m, item))
  {
    GroupInRange(t, argv[start..], afterDashes, item);
    Grow(t, items, item, argv, start, next);
    GrowContext(items, item, |t.groups|);
  }

  lemma StageStart(argv: seq<string>, t: Tables)
    requires argv != [] && |t.groups| > 0
    ensures Stage(argv, 1, t, [], false, Begin(|t.groups|))
  {
    assert argv[1..1] == [];
  }

  lemma StageTells(argv: seq<string>, n: nat, t: Tables, items: seq<Item>, afterDashes: bool, m: Context)
    requires Stage(argv, n, t, items, afterDashes, m)
    ensures InRange(items, |t.groups|) && m == Build(items, |t.groups|) && AllClassified(t, items, argv[1..])
    ensures Sources(items) <= argv[1..] && Sources(items) == argv[1..n]
    ensures n == |argv| ==> IsReading(t, items, argv[1..])
  {
    ParsedPrefix(argv, n, t, items);
  }

  lemma StuckStage(argv: seq<string>, n: nat, t: Tables, items: seq<Item>, afterDashes: bool, m: Context)
    requires Stage(argv, n, t, items, afterDashes, m) && n < |argv| && Unreadable(t, argv[n..], afterDashes)
    ensures NoReading(t, argv[1..])
  {
    StuckHere(argv, n, t, items);
  }

  // `--` is read as itself.
  lemma DashesHere(argv: seq<string>, start: nat, t: Tables, items: seq<Item>, afterDashes: bool, m: Context)
    requires start < |argv| && argv[start] == "--" && Stage(argv, start, t, items, afterDashes, m)
    ensures Stage(argv, start + 1, t, items + [DashDash], true, m)
  {
    DashesRead(t, argv[start..], afterDashes);
    NextStage(argv, start, start + 1, t, items, DashDash, afterDashes, m);
  }

  // An item read from argv[index - 1..next].
  lemma ReadHere(t: Tables, argv: seq<string>, index: nat, next: nat, item: Item)
    requires 0 < index <= next <= |argv| && Source(item) == argv[index - 1..next]
    requires Classified(t, item, false, argv[next..])
    ensures ReadsAs(t, argv[index - 1..], false, item)
  {
    assert argv[index - 1..] == Source(item) + argv[next..];
    assert argv[index - 1..][|Source(item)|..] == argv[next..];
  }

  // A last argument that wants one after it.
  lemma NoArgument(t: Tables, args: seq<string>, opt: string)
    requires |args| == 1 && args[0] == "-" + opt && IsOption(args[0])
    requires MatchSeparator(t.groups, opt).None? ==>
               var po := FindOption(t.options, opt); po.Some? && po.value.hasArg && !po.value.isExit
    ensures Unreadable(t, args, false)
  {
    forall item ensures !ReadsAs(t, args, false, item) {
      if ReadsAs(t, args, false, item) {
        SameKey(t, args, false, opt, item);
      }
    }
  }

  // An argument that is no option of the table, nor accepted or clearly unknown as an AVOption.
  lemma NoOption(t: Tables, args: seq<string>, opt: string)
    requires args != [] && args[0] == "-" + opt && IsOption(args[0])
    requires MatchSeparator(t.groups, opt).None? && FindOption(t.options, opt).None?
    requires |args| > 1 ==> !t.avOption(opt, args[1]).Accepted?
    requires "no" <= opt && (|args| > 1 ==> !t.avOption(opt, args[1]).Invalid?) ==>
               var po := FindOption(t.options, opt[2..]); po.None? || !po.value.isBool
    ensures Unreadable(t, args, false)
  {
    forall item ensures !ReadsAs(t, args, false, item) {
      if ReadsAs(t, args, false, item) {
        SameKey(t, args, false, opt, item);
      }
    }
  }

  // An argument, alone and with the one after it.
  lemma OneArgument(argv: seq<string>, index: nat, opt: string)
    requires 0 < index <= |argv| && argv[index - 1] == "-" + opt
    ensures argv[index - 1..index] == ["-" + opt]
    ensures index < |argv| ==> argv[index - 1..index + 1] == ["-" + opt, argv[index]]
  {
  }

  lemma TableSource(argv: seq<string>, index: nat, use: Use, takesNext: bool)
    requires 0 < index <= |argv| && argv[index - 1..index] == ["-" + use.key]
    requires takesNext && use.val.Some? ==>
               index < |argv| && argv[index - 1..index + 1] == ["-" + use.key, use.val.value]
    ensures Source(TableOption(use, takesNext)) == argv[index - 1..if takesNext && use.val.Some? then index + 1 else index]
  {
  }

  function AtMost(n: nat, max: nat): nat {
    if n <= max then n else max
  }

  /** The items account for argv[1..n]. */
  ghost predicate Parsed(argv: seq<string>, n: nat, t: Tables, items: seq<Item>) {
    && 1 <= n <= |argv| && Sources(items) == argv[1..n]
    && InRange(items, |t.groups|) && AllClassified(t, items, argv[1..])
  }

  // One more item, read from argv[start..next].
  lemma Grow(t: Tables, items: seq<Item>, item: Item, argv: seq<string>, start: nat, next: nat)
    requires start < next <= |argv| && Parsed(argv, start, t, items)
    requires |Source(item)| == next - start && ReadsAs(t, argv[start..], AfterDashes(items, |items|), item)
    ensures Parsed(argv, next, t, items + [item])
  {
    assert argv[start..next] == argv[start..][..next - start];
    GroupInRange(t, argv[start..], AfterDashes(items, |items|), item);
    GrowContext(items, item, |t.groups|);
    OneMoreSource(items, item, argv, start, next);
    assert argv[1..][|Sources(items)|..] == argv[start..];
    OneMoreClassified(t, items, item, argv[1..]);
  }

  lemma GroupInRange(t: Tables, args: seq<string>, afterDashes: bool, item: Item)
    requires ReadsAs(t, args, afterDashes, item)
    ensures item.Separator? ==> item.group < |t.groups|
  {
  }

  // The context after one more item.
  lemma GrowContext(items: seq<Item>, item: Item, n: nat)
    requires InRange(items, n) && (item.Separator? ==> item.group < n)
    ensures InRange(items + [item], n) && Build(items + [item], n) == Add(Build(items, n), item)
    ensures AfterDashes(items + [item], |items| + 1) == item.DashDash?
  {
    Appended(items, item);
  }

  lemma Appended(items: seq<Item>, item: Item)
    ensures (items + [item])[..|items|] == items
    ensures (items + [item])[|items|] == item
  {
  }

  lemma OneMoreSource(items: seq<Item>, item: Item, argv: seq<string>, start: nat, next: nat)
    requires 1 <= start <= next <= |argv| && Sources(items) == argv[1..start] && Source(item) == argv[start..next]
    ensures Sources(items + [item]) == argv[1..next]
  {
    Appended(items, item);
    assert argv[1..start] + argv[start..next] == argv[1..next];
  }

  lemma OneMoreClassified(t: Tables, items: seq<Item>, item: Item, args: seq<string>)
    requires AllClassified(t, items, args) && |Sources(items)| <= |args|
    requires ReadsAs(t, args[|Sources(items)|..], AfterDashes(items, |items|), item)
    ensures AllClassified(t, items + [item], args)
  {
    forall i | 0 <= i <= |items| ensures ClassifiedAt(t, items + [item], i, args) {
      SameBefore(items, item, i);
      if i < |items| {
        assert ClassifiedAt(t, items, i, args);
      } else {
        assert items[..i] == items;
      }
    }
  }

  lemma SameBefore(items: seq<Item>, item: Item, i: nat)
    requires i <= |items|
    ensures AfterDashes(items + [item], i) == AfterDashes(items, i)
    ensures (items + [item])[i] == if i < |items| then items[i] else item
    ensures (items + [item])[..i] == items[..i]
  {
  }

  lemma ParsedPrefix(argv: seq<string>, n: nat, t: Tables, items: seq<Item>)
    requires Parsed(argv, n, t, items)
    ensures Sources(items) <= argv[1..] && (n == |argv| ==> Sources(items) == argv[1..])
  {
    assert argv[1..n] == argv[1..][..n - 1];
  }

  lemma StuckHere(argv: seq<string>, n: nat, t: Tables, items: seq<Item>)
    requires Parsed(argv, n, t, items) && n < |argv|
    requires Unreadable(t, argv[n..], AfterDashes(items, |items|))
    ensures Sources(items) <= argv[1..]
    ensures NoReading(t, argv[1..])
  {
    ParsedPrefix(argv, n, t, items);
    assert argv[1..][|Sources(items)|..] == argv[n..];
    forall a ensures !IsReading(t, a, argv[1..]) {
      Stuck(t, items, argv[1..], a);
    }
  }

  lemma OneSource(argv: seq<string>, index: nat, arg: string)
    requires 0 < index <= |argv| && argv[index - 1] == arg
    ensures argv[index - 1..index] == [arg]
  {
  }

  /** The loop of match_group_separator. */
  method FindSeparator(groups: seq<GroupDef>, opt: string) returns (r: Option<nat>)
    ensures r == MatchSeparator(groups, opt)
  {
    var i := 0;
    while i < |groups|
      invariant 0 <= i <= |groups|
      invariant forall k :: 0 <= k < i ==> groups[k].sep != Some(opt)
    {
      if groups[i].sep == Some(opt) {
        return Some(i);
      }
      i := i + 1;
    }
    r := None;
  }

  /** The loop of find_option. */
  method LookUp(options: seq<OptionDef>, name: string) returns (r: Option<OptionDef>)
    ensures r == FindOption(options, name)
  {
    var i := 0;
    while i < |options|
      invariant 0 <= i <= |options|
      invariant FindOption(options[i..], name) == FindOption(options, name)
    {
      assert options[i..][1..] == options[i + 1..];
      if options[i].name == BaseName(name) {
        return Some(options[i]);
      }
      i := i + 1;
    }
    r := None;
  }

  // ---------------------------------------------------------------- what the groups hold

  predicate Delimits(item: Item) {
    item.Bare? || item.Separator?
  }

  function GroupOf(item: Item): nat
    requires Delimits(item)
  {
    if item.Bare? then 0 else item.group
  }

  function ArgOf(item: Item): string
    requires Delimits(item)
  {
    item.arg
  }

  /** The per-file uses among the items, in order; the global ones; the AVOptions. */
  function PerFile(items: seq<Item>): seq<Use> {
    if items == [] then []
    else
      var last := items[|items| - 1];
      PerFile(items[..|items| - 1]) + if last.TableOption? && last.use.opt.perFile then [last.use] else []
  }

  function Global(items: seq<Item>): seq<Use> {
    if items == [] then []
    else
      var last := items[|items| - 1];
      Global(items[..|items| - 1]) + if last.TableOption? && !last.use.opt.perFile then [last.use] else []
  }

  function AvOpts(items: seq<Item>): seq<(string, string)> {
    if items == [] then []
    else
      var last := items[|items| - 1];
      AvOpts(items[..|items| - 1]) + if last.AvOption? then [(last.key, last.val)] else []
  }

  /** Where the group that item `n` belongs to begins: after the last delimiter before it. */
  function Start(items: seq<Item>, n: nat): (s: nat)
    requires n <= |items|
    ensures s <= n && (s > 0 ==> Delimits(items[s - 1]))
    ensures forall i :: s <= i < n ==> !Delimits(items[i])
  {
    if n == 0 then 0 else if Delimits(items[n - 1]) then n else Start(items, n - 1)
  }

  /** How many delimiters of group definition `g` come before item `n`. */
  function Earlier(items: seq<Item>, g: nat, n: nat): nat
    requires n <= |items|
  {
    if n == 0 then 0
    else Earlier(items, g, n - 1) + if Delimits(items[n - 1]) && GroupOf(items[n - 1]) == g then 1 else 0
  }

  lemma {:induction false} BuildCurrent(items: seq<Item>, n: nat)
    requires InRange(items, n)
    ensures var s := Start(items, |items|);
            Build(items, n).cur == Group("", PerFile(items[s..]), AvOpts(items[s..]))
    decreases |items|
  {
    if items != [] {
      var before := items[..|items| - 1];
      BuildCurrent(before, n);
      StartPrefix(items, |before|);
      var s := Start(items, |items|);
      if s < |items| {
        LastOf(items, s);
      }
    }
  }

  // What a stretch of items holds, one item before its end.
  lemma LastOf(items: seq<Item>, s: nat)
    requires s < |items|
    ensures var last := items[|items| - 1];
            var before := items[..|items| - 1][s..];
            && PerFile(items[s..])
               == PerFile(before) + (if last.TableOption? && last.use.opt.perFile then [last.use] else [])
            && AvOpts(items[s..]) == AvOpts(before) + if last.AvOption? then [(last.key, last.val)] else []
  {
    var part := items[s..];
    assert part[..|part| - 1] == items[..|items| - 1][s..] && part[|part| - 1] == items[|items| - 1];
  }

  lemma {:induction false} StartPrefix(items: seq<Item>, k: nat)
    requires k < |items|
    ensures Start(items[..|items| - 1], k) == Start(items, k)
    ensures forall g :: Earlier(items[..|items| - 1], g, k) == Earlier(items, g, k)
    decreases k
  {
    if k > 0 {
      StartPrefix(items, k - 1);
    }
  }

  lemma {:induction false} GroupCount(items: seq<Item>, n: nat, g: nat)
    requires InRange(items, n) && g < n
    ensures |Build(items, n).groups[g]| == Earlier(items, g, |items|)
    decreases |items|
  {
    if items != [] {
      GroupCount(items[..|items| - 1], n, g);
      StartPrefix(items, |items| - 1);
    }
  }

  /** Every delimiter finishes one group of its definition, numbered by the delimiters of that
      definition before it; the group has the delimiter's argument and, in order, exactly the
      per-file options and the AVOptions given since the previous delimiter of any kind. */
  lemma {:induction false} GroupHoldsOptionsSinceDelimiter(items: seq<Item>, n: nat, i: nat)
    requires InRange(items, n) && i < |items| && Delimits(items[i])
    ensures var g := GroupOf(items[i]);
            var s := Start(items, i);
            && Earlier(items, g, i) < |Build(items, n).groups[g]|
            && Build(items, n).groups[g][Earlier(items, g, i)]
                 == Group(ArgOf(items[i]), PerFile(items[s..i]), AvOpts(items[s..i]))
    decreases |items|
  {
    var before := items[..|items| - 1];
    if i < |before| {
      StartPrefix(items, i);
      GroupHoldsOptionsSinceDelimiter(before, n, i);
      assert before[Start(items, i)..i] == items[Start(items, i)..i];
      GroupStays(items, n, GroupOf(items[i]), Earlier(items, GroupOf(items[i]), i));
    } else {
      LastGroupHolds(items, n);
    }
  }

  lemma LastGroupHolds(items: seq<Item>, n: nat)
    requires InRange(items, n) && items != [] && Delimits(items[|items| - 1])
    ensures var i := |items| - 1;
            var g, s := GroupOf(items[i]), Start(items, i);
            && Earlier(items, g, i) < |Build(items, n).groups[g]|
            && Build(items, n).groups[g][Earlier(items, g, i)]
                 == Group(ArgOf(items[i]), PerFile(items[s..i]), AvOpts(items[s..i]))
  {
    var i := |items| - 1;
    var before := items[..i];
    StartPrefix(items, i);
    BuildCurrent(before, n);
    GroupCount(before, n, GroupOf(items[i]));
    assert before[Start(items, i)..] == items[Start(items, i)..i];
    LastGroup(items, n);
  }

  // A group once finished stays.
  lemma GroupStays(items: seq<Item>, n: nat, g: nat, k: nat)
    requires InRange(items, n) && items != [] && g < n && k < |Build(items[..|items| - 1], n).groups[g]|
    ensures k < |Build(items, n).groups[g]|
    ensures Build(items, n).groups[g][k] == Build(items[..|items| - 1], n).groups[g][k]
  {
  }

  // The last item, if it delimits, finishes the group being collected.
  lemma LastGroup(items: seq<Item>, n: nat)
    requires InRange(items, n) && items != [] && Delimits(items[|items| - 1])
    ensures var c, last := Build(items[..|items| - 1], n), items[|items| - 1];
            var g := GroupOf(last);
            Build(items, n).groups[g] == c.groups[g] + [c.cur.(arg := ArgOf(last))]
  {
  }

  /** There are no other groups: each definition has as many as it has delimiters; and every other
      option of the table is in the global group, in order. */
  lemma {:induction false} NothingElse(items: seq<Item>, n: nat, g: nat)
    requires InRange(items, n) && g < n
    ensures |Build(items, n).groups[g]| == Earlier(items, g, |items|)
    ensures Build(items, n).global == Global(items)
    decreases |items|
  {
    GroupCount(items, n, g);
    if items != [] {
      NothingElse(items[..|items| - 1], n, g);
    }
  }

  // ---------------------------------------------------------------- what an argument is read as

  /** The option that a word after '-' names in the table: the first entry whose name is the word up to a
      ':'. */
  ghost predicate Names(t: Tables, word: string, po: OptionDef) {
    exists k :: 0 <= k < |t.options| && t.options[k] == po && IsFirst(t.options, BaseName(word), k)
  }

  ghost predicate NamesNone(t: Tables, word: string) {
    forall po :: po in t.options ==> po.name != BaseName(word)
  }

  ghost predicate IsSeparator(t: Tables, word: string, g: nat) {
    g < |t.groups| && t.groups[g].sep == Some(word) && forall k :: 0 <= k < g ==> t.groups[k].sep != Some(word)
  }

  ghost predicate SeparatesNothing(t: Tables, word: string) {
    forall g :: g in t.groups ==> g.sep != Some(word)
  }

  lemma NamesIs(t: Tables, word: string, po: OptionDef)
    requires Names(t, word, po)
    ensures FindOption(t.options, word) == Some(po)
  {
    var k :| 0 <= k < |t.options| && t.options[k] == po && IsFirst(t.options, BaseName(word), k);
    assert t.options[k] in t.options;
    var r := FindOption(t.options, word);
    var j :| 0 <= j < |t.options| && t.options[j] == r.value && IsFirst(t.options, BaseName(word), j);
    assert j == k;
  }

  lemma SeparatorIs(t: Tables, word: string, g: nat)
    requires IsSeparator(t, word, g)
    ensures MatchSeparator(t.groups, word) == Some(g)
  {
    assert t.groups[g] in t.groups;
  }

  lemma NoSeparatorIs(t: Tables, word: string)
    requires SeparatesNothing(t, word)
    ensures MatchSeparator(t.groups, word).None?
  {
  }

  lemma NamesNoneIs(t: Tables, word: string)
    requires NamesNone(t, word)
    ensures FindOption(t.options, word).None?
  {
  }

  /** Arguments from item `i` on: what it is read as depends on its word alone when it is a named
      separator, which takes the next argument and comes before any option of that name. */
  lemma SeparatorTakesNext(t: Tables, items: seq<Item>, args: seq<string>, i: nat, word: string, g: nat)
    requires At(t, items, args, i, word) && IsSeparator(t, word, g)
    ensures |Rest(items, args, i)| >= 2 && items[i] == Separator(g, word, Rest(items, args, i)[1])
  {
    SeparatorIs(t, word, g);
    FromHere(t, items, args, i, word);
  }

  /** An option of the table takes the next argument exactly when it takes one at all, an OPT_EXIT option
      also when there is none; a flag gets the value 1. It comes before any AVOption of that name. */
  lemma OptionTakesNext(t: Tables, items: seq<Item>, args: seq<string>, i: nat, word: string, po: OptionDef)
    requires At(t, items, args, i, word) && SeparatesNothing(t, word) && Names(t, word, po)
    ensures var rest := Rest(items, args, i);
            items[i] == if po.isExit then TableOption(Use(po, word, if |rest| >= 2 then Some(rest[1]) else None), true)
                        else if po.hasArg && |rest| >= 2 then TableOption(Use(po, word, Some(rest[1])), true)
                        else TableOption(Use(po, word, Some("1")), false)
    ensures po.hasArg && !po.isExit ==> |Rest(items, args, i)| >= 2
  {
    NoSeparatorIs(t, word);
    NamesIs(t, word, po);
    FromHere(t, items, args, i, word);
  }

  /** Any other word is an AVOption with the next argument if opt_default accepts the two, and else -nofoo
      for a boolean option foo, with the value 0. */
  lemma OtherWords(t: Tables, items: seq<Item>, args: seq<string>, i: nat, word: string)
    requires At(t, items, args, i, word) && SeparatesNothing(t, word) && NamesNone(t, word)
    ensures var rest := Rest(items, args, i);
            if |rest| >= 2 && t.avOption(word, rest[1]).Accepted? then items[i] == AvOption(word, rest[1])
            else |word| >= 2 && word[0] == 'n' && word[1] == 'o'
                 && (|rest| >= 2 ==> t.avOption(word, rest[1]).NotFound?)
                 && exists po :: Names(t, word[2..], po) && po.isBool
                                 && items[i] == TableOption(Use(po, word, Some("0")), false)
  {
    NoSeparatorIs(t, word);
    NamesNoneIs(t, word);
    FromHere(t, items, args, i, word);
    if items[i].TableOption? {
      assert Names(t, word[2..], items[i].use.opt);
    }
  }

  // The arguments from item `i` on.
  function Rest(items: seq<Item>, args: seq<string>, i: nat): seq<string>
    requires i <= |items|
  {
    var n := |Sources(items[..i])|;
    if n <= |args| then args[n..] else []
  }

  /** Item `i` of a reading begins at the argument '-' and `word`, not after `--`. */
  ghost predicate At(t: Tables, items: seq<Item>, args: seq<string>, i: nat, word: string) {
    && IsReading(t, items, args) && i < |items| && !AfterDashes(items, i)
    && Rest(items, args, i) != [] && Rest(items, args, i)[0] == "-" + word && IsOption("-" + word)
  }

  lemma FromHere(t: Tables, items: seq<Item>, args: seq<string>, i: nat, word: string)
    requires At(t, items, args, i, word)
    ensures var item, rest := items[i], Rest(items, args, i);
            && (item.Separator? || item.TableOption? || item.AvOption?) && KeyOf(item) == word
            && Source(item) <= rest && Classified(t, item, false, rest[|Source(item)|..])
            && (|Source(item)| == 2 ==> rest[1] == Source(item)[1])
            && (|rest| >= 2 && |Source(item)| == 1 ==> rest[|Source(item)|..][0] == rest[1])
  {
    assert ClassifiedAt(t, items, i, args);
    SameKey(t, Rest(items, args, i), false, word, items[i]);
  }

  /** The argument after `--` names an output, even when it looks like an option, unless it is
      another `--`. */
  lemma AfterDashDash(t: Tables, items: seq<Item>, args: seq<string>, i: nat)
    requires AllClassified(t, items, args)
    requires i + 1 < |items| && items[i].DashDash?
    ensures items[i + 1].Bare? <==> Source(items[i + 1])[0] != "--"
  {
    assert ClassifiedAt(t, items, i + 1, args);
  }

  /** It happens: whatever the tables are, the arguments `-- --` can be read, as two `--` and in no
      other way, so the second is no output name. */
  lemma DashDashTwice(t: Tables, items: seq<Item>)
    ensures IsReading(t, items, ["--", "--"]) <==> items == [DashDash, DashDash]
  {
    var two, args := [DashDash, DashDash], ["--", "--"];
    assert two[..1] == [DashDash] && two[..0] == [] && [DashDash][..0] == [];
    assert Sources([DashDash]) == ["--"] && Sources(two) == args;
    assert ClassifiedAt(t, two, 0, args) && ClassifiedAt(t, two, 1, args);
    if IsReading(t, items, args) {
      ReadingIsUnique(t, items, two, args);
    }
  }
}
