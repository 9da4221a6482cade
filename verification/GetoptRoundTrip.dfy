/** Command lines made from a list of options, and how getopt_long reads them back. */
module GetoptRoundTrip {
  import opened Common
  import opened GetoptModel

  /** The end of a group of short options. */
  datatype GroupEnd = NoArg | Attached(c: char, text: string) | Separate(opt: char, arg: string)

  datatype Item =
    | LongFlag(def: OptDef)
    | LongEquals(def: OptDef, value: string)
    | LongSeparate(def: OptDef, value: string)
    | Group(flags: string, end: GroupEnd)

  // ---------------------------------------------------------------- rendering

  function GroupText(flags: string, end: GroupEnd): string {
    "-" + flags + match end case NoArg => "" case Attached(c, text) => [c] + text case Separate(c, _) => [c]
  }

  function Words(item: Item): (ws: seq<string>)
    ensures |ws| > 0
  {
    match item
    case LongFlag(def) => ["--" + def.name]
    case LongEquals(def, value) => ["--" + def.name + "=" + value]
    case LongSeparate(def, value) => ["--" + def.name, value]
    case Group(flags, end) => [GroupText(flags, end)] + if end.Separate? then [end.arg] else []
  }

  function Render(items: seq<Item>): seq<string> {
    if items == [] then [] else Words(items[0]) + Render(items[1..])
  }

  function FlagsSeen(flags: string): seq<Seen> {
    if flags == [] then [] else [Seen(flags[0] as int, None)] + FlagsSeen(flags[1..])
  }

  function EndSeen(end: GroupEnd): seq<Seen> {
    match end
    case NoArg => []
    case Attached(c, text) => [Seen(c as int, Some(text))]
    case Separate(c, arg) => [Seen(c as int, Some(arg))]
  }

  /** The options that an item stands for. */
  function ItemSeen(item: Item): seq<Seen> {
    match item
    case LongFlag(def) => [Seen(def.val, None)]
    case LongEquals(def, value) => [Seen(def.val, Some(value))]
    case LongSeparate(def, value) => [Seen(def.val, Some(value))]
    case Group(flags, end) => FlagsSeen(flags) + EndSeen(end)
  }

  function AllSeen(items: seq<Item>): seq<Seen> {
    if items == [] then [] else ItemSeen(items[0]) + AllSeen(items[1..])
  }

  // ---------------------------------------------------------------- items that a table allows

  /** The table finds this long option under its name. */
  predicate Usable(opts: seq<OptDef>, def: OptDef, hasArg: bool) {
    && def.name != "" && '=' !in def.name && def.hasArg == hasArg && def.val != -1
    && LookupLong(opts, def.name) == Some(def)
  }

  predicate UsableChar(opts: seq<OptDef>, c: char, hasArg: bool) {
    LookupShort(opts, c).Some? && LookupShort(opts, c).value.hasArg == hasArg
  }

  predicate UsableEnd(opts: seq<OptDef>, end: GroupEnd) {
    match end
    case NoArg => true
    case Attached(c, text) => UsableChar(opts, c, true) && text != ""
    case Separate(c, _) => UsableChar(opts, c, true)
  }

  predicate UsableItem(opts: seq<OptDef>, item: Item) {
    match item
    case LongFlag(def) => Usable(opts, def, false)
    case LongEquals(def, _) => Usable(opts, def, true)
    case LongSeparate(def, _) => Usable(opts, def, true)
    case Group(flags, end) =>
      && (forall i :: 0 <= i < |flags| ==> UsableChar(opts, flags[i], false))
      && UsableEnd(opts, end)
      && IsShort(GroupText(flags, end))
  }

  predicate UsableItems(opts: seq<OptDef>, items: seq<Item>) {
    forall i :: 0 <= i < |items| ==> UsableItem(opts, items[i])
  }

  // ---------------------------------------------------------------- reading one item

  /** The words stand in argv from position i on. */
  ghost predicate Stand(argv: seq<string>, i: nat, ws: seq<string>) {
    i + |ws| <= |argv| && argv[i..i + |ws|] == ws
  }

  /** Reading goes on at word i. */
  ghost predicate Before(argv: seq<string>, st: State, i: nat) {
    Valid(argv, st) && st.nextchar.None? && At(st) == i
  }

  /** A run of calls that sees these options and leaves the state st2. */
  ghost predicate Reads(opts: seq<OptDef>, argv: seq<string>, st: State, seen: seq<Seen>, st2: State) {
    && Valid(argv, st) && Valid(argv, st2)
    && ParseAll(opts, argv, st) == (seen + ParseAll(opts, argv, st2).0, ParseAll(opts, argv, st2).1)
  }

  lemma ReadsOne(opts: seq<OptDef>, argv: seq<string>, st: State)
    requires Valid(argv, st) && Step(Some(opts), argv, st).1 != -1
    ensures var (next, code) := Step(Some(opts), argv, st);
            Reads(opts, argv, st, [Seen(code, next.optarg)], next)
  {
    hide Step;
    StepKeeps(Some(opts), argv, st);
    StepReads(opts, argv, st);
  }

  lemma ReadsNone(opts: seq<OptDef>, argv: seq<string>, st: State)
    requires Valid(argv, st)
    ensures Reads(opts, argv, st, [], st)
  {
    hide ParseAll;
    var (seen, end) := ParseAll(opts, argv, st);
    assert [] + seen == seen;
  }

  lemma ReadsMore(opts: seq<OptDef>, argv: seq<string>, st: State, a: seq<Seen>, st2: State, b: seq<Seen>, st3: State)
    requires Reads(opts, argv, st, a, st2) && Reads(opts, argv, st2, b, st3)
    ensures Reads(opts, argv, st, a + b, st3)
  {
    hide ParseAll;
    var (seen, end) := ParseAll(opts, argv, st3);
    assert a + (b + seen) == a + b + seen;
  }

  /** The part of a long word before the first '='. */
  lemma {:induction false} NameOf(name: string, rest: string)
    requires '=' !in name && (rest == "" || rest[0] == '=')
    ensures Find(name + rest, '=') == |name| && (name + rest)[..|name|] == name
  {
    if name == [] {
      assert name + rest == rest;
    } else {
      NameOf(name[1..], rest);
      assert (name + rest)[1..] == name[1..] + rest;
    }
  }

  lemma LongItem(opts: seq<OptDef>, argv: seq<string>, st: State, i: nat, item: Item)
    requires Before(argv, st, i) && UsableItem(opts, item) && !item.Group? && Stand(argv, i, Words(item))
    ensures var (next, code) := Step(Some(opts), argv, st);
            Seen(code, next.optarg) == ItemSeen(item)[0] && Before(argv, next, i + |Words(item)|)
  {
    hide LookupLong, LookupShort, Find, ShortStep;
    var ws := Words(item);
    var def := item.def;
    var rest := if item.LongEquals? then "=" + item.value else "";
    assert argv[i] == argv[i..i + |ws|][0];
    assert |ws| == 2 ==> argv[i + 1] == argv[i..i + |ws|][1];
    var w := argv[i];
    NameOf(def.name, rest);
    assert w[2..] == def.name + rest;
    assert item.LongEquals? ==> w[2..][|def.name| + 1..] == item.value;
    StepKeeps(Some(opts), argv, st);
  }

  /** Reading goes on in word i, at character p. */
  ghost predicate Inside(argv: seq<string>, st: State, i: nat, p: nat) {
    && Valid(argv, st) && At(st) == i && i < |argv| && 0 < p < |argv[i]| && IsShort(argv[i])
    && st.nextchar == (if p == 1 then None else Some(p))
  }

  lemma InsideStep(opts: seq<OptDef>, argv: seq<string>, st: State, i: nat, p: nat)
    requires Inside(argv, st, i, p)
    ensures Step(Some(opts), argv, st) == ShortStep(opts, argv, i, p)
  {
    hide ShortStep, LongStep;
  }

  /** The flags from character p on, where the word has the same text after the dash. */
  lemma {:induction false} ReadFlags(opts: seq<OptDef>, argv: seq<string>, st: State, i: nat, p: nat,
                                     flags: string, rest: string) returns (st2: State)
    requires Inside(argv, st, i, p) && argv[i][p..] == flags + rest
    requires forall k :: 0 <= k < |flags| ==> UsableChar(opts, flags[k], false)
    ensures Reads(opts, argv, st, FlagsSeen(flags), st2)
    ensures if rest == "" then Before(argv, st2, i + 1) else Inside(argv, st2, i, p + |flags|)
    decreases |flags|
  {
    hide Reads, LookupShort;
    if flags == [] {
      st2 := st;
      ReadsNone(opts, argv, st);
      assert argv[i][p..] != [];
    } else {
      InsideStep(opts, argv, st, i, p);
      var w := argv[i];
      assert w[p] == w[p..][0] == flags[0];
      var (next, code) := Step(Some(opts), argv, st);
      assert UsableChar(opts, flags[0], false);
      ReadsOne(opts, argv, st);
      StepKeeps(Some(opts), argv, st);
      assert w[p + 1..] == w[p..][1..] == flags[1..] + rest;
      if p + 1 == |w| {
        st2 := next;
        assert |flags[1..] + rest| == 0;
        assert FlagsSeen(flags) == [Seen(code, next.optarg)];
      } else {
        st2 := ReadFlags(opts, argv, next, i, p + 1, flags[1..], rest);
        ReadsMore(opts, argv, st, [Seen(code, next.optarg)], next, FlagsSeen(flags[1..]), st2);
      }
    }
  }

  lemma ReadEnd(opts: seq<OptDef>, argv: seq<string>, st: State, i: nat, p: nat, end: GroupEnd)
    requires !end.NoArg? && UsableEnd(opts, end) && Inside(argv, st, i, p)
    requires argv[i][p..] == if end.Attached? then [end.c] + end.text else [end.opt]
    requires end.Separate? ==> i + 1 < |argv| && argv[i + 1] == end.arg
    ensures var (next, code) := Step(Some(opts), argv, st);
            && [Seen(code, next.optarg)] == EndSeen(end) && code != -1
            && Before(argv, next, if end.Attached? then i + 1 else i + 2)
  {
    hide LookupShort, Step;
    InsideStep(opts, argv, st, i, p);
    StepKeeps(Some(opts), argv, st);
    var w := argv[i];
    assert w[p] == w[p..][0];
    assert w[p + 1..] == w[p..][1..];
  }

  lemma GroupItem(opts: seq<OptDef>, argv: seq<string>, st: State, i: nat, flags: string, end: GroupEnd)
    returns (st2: State)
    requires Before(argv, st, i) && UsableItem(opts, Group(flags, end)) && Stand(argv, i, Words(Group(flags, end)))
    ensures Reads(opts, argv, st, FlagsSeen(flags) + EndSeen(end), st2)
    ensures Before(argv, st2, i + |Words(Group(flags, end))|)
  {
    hide Reads, LookupShort, Step;
    var ws := Words(Group(flags, end));
    assert argv[i] == argv[i..i + |ws|][0] == GroupText(flags, end);
    assert end.Separate? ==> argv[i + 1] == argv[i..i + |ws|][1];
    var rest := match end case NoArg => "" case Attached(c, text) => [c] + text case Separate(c, _) => [c];
    assert argv[i][1..] == flags + rest;
    st2 := ReadFlags(opts, argv, st, i, 1, flags, rest);
    if end.NoArg? {
      assert FlagsSeen(flags) + EndSeen(end) == FlagsSeen(flags);
    } else {
      assert argv[i][1 + |flags|..] == rest;
      ReadEnd(opts, argv, st2, i, 1 + |flags|, end);
      ReadsOne(opts, argv, st2);
      var next := Step(Some(opts), argv, st2).0;
      ReadsMore(opts, argv, st, FlagsSeen(flags), st2, EndSeen(end), next);
      st2 := next;
    }
  }

  lemma ReadItem(opts: seq<OptDef>, argv: seq<string>, st: State, i: nat, item: Item) returns (st2: State)
    requires Before(argv, st, i) && UsableItem(opts, item) && Stand(argv, i, Words(item))
    ensures Reads(opts, argv, st, ItemSeen(item), st2) && Before(argv, st2, i + |Words(item)|)
  {
    hide Reads, Step, LookupLong, LookupShort;
    if item.Group? {
      st2 := GroupItem(opts, argv, st, i, item.flags, item.end);
    } else {
      LongItem(opts, argv, st, i, item);
      ReadsOne(opts, argv, st);
      st2 := Step(Some(opts), argv, st).0;
    }
  }

  // ---------------------------------------------------------------- reading a whole command line

  lemma StandSplit(argv: seq<string>, i: nat, a: seq<string>, b: seq<string>)
    requires Stand(argv, i, a + b)
    ensures Stand(argv, i, a) && Stand(argv, i + |a|, b)
  {
    var s := argv[i..i + |a + b|];
    assert argv[i..i + |a|] == s[..|a|];
    assert argv[i + |a|..i + |a| + |b|] == s[|a|..];
  }

  lemma {:induction false} ReadItems(opts: seq<OptDef>, argv: seq<string>, st: State, i: nat, items: seq<Item>)
    returns (st2: State)
    requires Before(argv, st, i) && UsableItems(opts, items) && Stand(argv, i, Render(items))
    ensures Reads(opts, argv, st, AllSeen(items), st2) && Before(argv, st2, i + |Render(items)|)
    decreases |items|
  {
    hide Reads, Step, UsableItem, Stand, Words, ItemSeen;
    if items == [] {
      st2 := st;
      ReadsNone(opts, argv, st);
    } else {
      StandSplit(argv, i, Words(items[0]), Render(items[1..]));
      var st1 := ReadItem(opts, argv, st, i, items[0]);
      st2 := ReadItems(opts, argv, st1, i + |Words(items[0])|, items[1..]);
      ReadsMore(opts, argv, st, ItemSeen(items[0]), st1, AllSeen(items[1..]), st2);
    }
  }

  /** A word at which getopt stops. */
  predicate IsPositional(w: string) {
    !IsLong(w) && !IsShort(w) && w != "--"
  }

  function CommandLine(program: string, items: seq<Item>, dashes: bool, positionals: seq<string>): seq<string> {
    [program] + Render(items) + ((if dashes then ["--"] else []) + positionals)
  }

  /**
   * Whatever way the options are written - long, with '=', with the argument as a word of its own, or as groups of
   * short options - repeated calls give the list back, and optind ends at the first positional. That needs "--"
   * before the positionals, unless the first of them cannot be mistaken for an option.
   */
  lemma RoundTrip(opts: seq<OptDef>, program: string, items: seq<Item>, dashes: bool, positionals: seq<string>,
                  argv: seq<string>, st: State)
    requires UsableItems(opts, items)
    requires dashes || positionals == [] || IsPositional(positionals[0])
    requires st.optind <= 1 && st.nextchar.None?
    requires argv == CommandLine(program, items, dashes, positionals)
    ensures Valid(argv, st)
    ensures var (seen, end) := ParseAll(opts, argv, st);
            seen == AllSeen(items) && end.nextchar.None? && end.optind <= |argv| && argv[end.optind..] == positionals
  {
    hide UsableItems, Render, AllSeen, ParseAll, Stand, IsPositional;
    var rest := (if dashes then ["--"] else []) + positionals;
    Layout(argv, program, Render(items), rest);
    assert dashes ==> rest[1..] == positionals;
    PositionalIsNoDash(positionals);
    ReadBack(opts, argv, items, rest, positionals, st);
  }

  lemma PositionalIsNoDash(positionals: seq<string>)
    ensures positionals != [] && IsPositional(positionals[0]) ==> positionals[0] != "--"
  {
  }

  lemma ReadBack(opts: seq<OptDef>, argv: seq<string>, items: seq<Item>, rest: seq<string>, positionals: seq<string>,
                 st: State)
    requires UsableItems(opts, items) && Stand(argv, 1, Render(items)) && |argv| == 1 + |Render(items)| + |rest|
    requires argv[1 + |Render(items)|..] == rest && Ends(rest, positionals)
    requires Valid(argv, st) && st.optind <= 1 && st.nextchar.None?
    ensures var (seen, end) := ParseAll(opts, argv, st);
            seen == AllSeen(items) && end.nextchar.None? && end.optind <= |argv| && argv[end.optind..] == positionals
  {
    hide UsableItems, Render, AllSeen, ParseAll, Stand, Ends;
    var st2 := ReadItems(opts, argv, st, 1, items);
    EndOfParse(opts, argv, st2, rest, positionals);
    assert AllSeen(items) + [] == AllSeen(items);
  }

  /** What is left is the positionals, after a "--" or with a first word that is no option. */
  predicate Ends(rest: seq<string>, positionals: seq<string>) {
    if rest != [] && rest[0] == "--" then rest[1..] == positionals
    else rest == positionals && (rest == [] || IsPositional(rest[0]))
  }

  lemma Layout(argv: seq<string>, program: string, ws: seq<string>, rest: seq<string>)
    requires argv == [program] + ws + rest
    ensures Stand(argv, 1, ws) && argv[1 + |ws|..] == rest && |argv| == 1 + |ws| + |rest|
  {
    assert argv[1..1 + |ws|] == ws;
  }

  lemma EndOfParse(opts: seq<OptDef>, argv: seq<string>, st: State, rest: seq<string>, positionals: seq<string>)
    requires Valid(argv, st) && st.nextchar.None? && At(st) <= |argv| && argv[At(st)..] == rest
    requires Ends(rest, positionals)
    ensures var (seen, end) := ParseAll(opts, argv, st);
            seen == [] && end.nextchar.None? && end.optind <= |argv| && argv[end.optind..] == positionals
  {
    var i := At(st);
    if i < |argv| {
      assert argv[i] == rest[0];
      assert argv[i + 1..] == rest[1..];
    }
  }

  // ---------------------------------------------------------------- a long option without a name

  /** Whatever follows the first '=' is the argument of the first entry that has no name: a short option, usually. */
  lemma NamelessLongOption(opts: seq<OptDef>, argv: seq<string>, st: State, value: string)
    requires Valid(argv, st) && st.nextchar.None? && At(st) < |argv| && argv[At(st)] == "--=" + value
    ensures var (next, code) := Step(Some(opts), argv, st);
      match LookupLong(opts, "")
      case None => code == QUESTION && next.optarg.None?
      case Some(opt) =>
        if opt.hasArg then code == opt.val && next.optarg == Some(value)
        else code == QUESTION && next.optopt == opt.val
  {
    hide LookupLong;
    var w := argv[At(st)];
    NameOf("", "=" + value);
    assert w[2..] == "" + ("=" + value);
    assert w[2..][..0] == "";
    assert w[2..][1..] == value;
  }

  /** It is found exactly when some entry has no name, so no table of long options alone has it. */
  lemma {:induction false} NamelessExactly(opts: seq<OptDef>)
    ensures LookupLong(opts, "").Some? <==> exists i :: 0 <= i < |opts| && opts[i].name == ""
  {
    if opts != [] && opts[0].name != "" {
      NamelessExactly(opts[1..]);
      var rest := opts[1..];
      assert forall i :: 0 <= i < |rest| ==> rest[i] == opts[i + 1];
      assert forall i :: 0 < i < |opts| ==> opts[i] == rest[i - 1];
    }
  }
}
