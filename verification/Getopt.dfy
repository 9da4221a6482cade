/** getopt_long, with its global variables. */
module Getopt {
  import opened Common
  import opened GetoptModel

  method LookupLongOpt(opts: seq<OptDef>, name: string, len: nat) returns (r: Option<OptDef>)
    requires len <= |name|
    ensures r == LookupLong(opts, name[..len])
    ensures r.None? <==> forall i :: 0 <= i < |opts| ==> opts[i].name != name[..len]
  {
    var i := 0;
    while i < |opts|
      invariant 0 <= i <= |opts|
      invariant LookupLong(opts, name[..len]) == LookupLong(opts[i..], name[..len])
      invariant forall k :: 0 <= k < i ==> opts[k].name != name[..len]
    {
      if |opts[i].name| == len && opts[i].name == name[..len] {
        return Some(opts[i]);
      }
      assert opts[i..][1..] == opts[i + 1..];
      i := i + 1;
    }
    return None;
  }

  method LookupShortOpt(opts: seq<OptDef>, c: char) returns (r: Option<OptDef>)
    ensures r == LookupShort(opts, c)
    ensures r.None? <==> forall i :: 0 <= i < |opts| ==> !(opts[i].name == "" && opts[i].val == c as int)
  {
    var i := 0;
    while i < |opts|
      invariant 0 <= i <= |opts|
      invariant LookupShort(opts, c) == LookupShort(opts[i..], c)
      invariant forall k :: 0 <= k < i ==> !(opts[k].name == "" && opts[k].val == c as int)
    {
      if opts[i].name == "" && opts[i].val == c as int {
        return Some(opts[i]);
      }
      assert opts[i..][1..] == opts[i + 1..];
      i := i + 1;
    }
    return None;
  }

  ghost function After(done: seq<OptDef>, r: Option<seq<OptDef>>): Option<seq<OptDef>> {
    if r.None? then None else Some(done + r.value)
  }

  /** The long options first, then the short ones; false at the first character that is no letter or digit. */
  method ParseOpts(shortopts: string, longopts: seq<OptDef>) returns (ok: bool, res: seq<OptDef>)
    ensures ok <==> Table(shortopts, longopts).Some?
    ensures ok ==> res == Table(shortopts, longopts).value
  {
    res := [];
    for lopt := 0 to |longopts|
      invariant res == longopts[..lopt]
    {
      res := res + [longopts[lopt]];
    }
    ghost var shorts: seq<OptDef> := [];
    var sopt := 0;
    assert shortopts[0..] == shortopts;
    AfterNone(ShortOpts(shortopts));
    while sopt < |shortopts|
      invariant 0 <= sopt <= |shortopts|
      invariant res == longopts + shorts
      invariant After(shorts, ShortOpts(shortopts[sopt..])) == ShortOpts(shortopts)
    {
      ghost var rest := shortopts[sopt..];
      var c := shortopts[sopt];
      sopt := sopt + 1;
      if !IsAlnum(c) {
        return false, res;
      }
      var opt := OptDef("", false, c as int);
      if sopt < |shortopts| && shortopts[sopt] == ':' {
        opt := opt.(hasArg := true);
        sopt := sopt + 1;
      }
      OneShort(shorts, rest, opt, shortopts[sopt..]);
      res, shorts := res + [opt], shorts + [opt];
    }
    ok := true;
  }

  lemma AfterNone(r: Option<seq<OptDef>>)
    ensures After([], r) == r
  {
    assert r.Some? ==> [] + r.value == r.value;
  }

  lemma OneShort(done: seq<OptDef>, s: string, opt: OptDef, rest: string)
    requires s != "" && IsAlnum(s[0])
    requires opt == OptDef("", |s| > 1 && s[1] == ':', s[0] as int)
    requires rest == if opt.hasArg then s[2..] else s[1..]
    ensures After(done, ShortOpts(s)) == After(done + [opt], ShortOpts(rest))
  {
    if ShortOpts(rest).Some? {
      var r := ShortOpts(rest).value;
      assert done + ([opt] + r) == done + [opt] + r;
    }
  }

  /** strchr: the position of the first occurrence, or the length. */
  method FindChar(s: string, c: char) returns (n: nat)
    ensures n == Find(s, c)
  {
    n := 0;
    while n < |s| && s[n] != c
      invariant n <= |s| && Find(s, c) == n + Find(s[n..], c)
    {
      assert s[n..][1..] == s[n + 1..];
      n := n + 1;
    }
  }

  class Globals {
    var optarg: Option<string>
    var optind: nat
    var optopt: int
    var nextchar: Option<nat>

    constructor ()
      ensures Now() == State(0, None, None, 0)
    {
      optarg, optind, optopt, nextchar := None, 0, 0, None;
    }

    function Now(): State
      reads this
    {
      State(optind, nextchar, optarg, optopt)
    }

    /** A word of the form --name or --name=value. */
    method LongOption(opts: seq<OptDef>, argv: seq<string>) returns (r: int)
      requires optind < |argv| && IsLong(argv[optind]) && nextchar.None? && optarg.None? && optopt == 0
      modifies this
      ensures (Now(), r) == LongStep(opts, argv, old(optind))
    {
      var arg := argv[optind][2..];
      var len := FindChar(arg, '=');
      var sep := len < |arg|;
      optind := optind + 1;
      var opt := LookupLongOpt(opts, arg, len);
      if opt.None? {
        return QUESTION;
      }
      optopt := opt.value.val;
      if !opt.value.hasArg {
        return if sep then QUESTION else opt.value.val;
      }
      if sep {
        optarg := Some(arg[len + 1..]);
        return opt.value.val;
      } else if optind >= |argv| {
        return QUESTION;
      }
      optarg := Some(argv[optind]);
      optind := optind + 1;
      return opt.value.val;
    }

    /** One character of a group of short options. */
    method ShortOption(opts: seq<OptDef>, argv: seq<string>) returns (r: int)
      requires nextchar.Some? && optind < |argv| && nextchar.value < |argv[optind]| && optarg.None?
      modifies this
      ensures (Now(), r) == ShortStep(opts, argv, old(optind), old(nextchar.value))
    {
      var arg := argv[optind];
      var curChar := arg[nextchar.value];
      nextchar := Some(nextchar.value + 1);
      if nextchar.value == |arg| {
        nextchar := None;
        optind := optind + 1;
      }
      var opt := LookupShortOpt(opts, curChar);
      optopt := curChar as int;
      if opt.None? {
        return QUESTION;
      }
      if !opt.value.hasArg {
        return curChar as int;
      }
      if nextchar.None? {
        if optind >= |argv| {
          return QUESTION;
        }
        optarg := Some(argv[optind]);
        optind := optind + 1;
        return curChar as int;
      }
      optarg := Some(arg[nextchar.value..]);
      nextchar := None;
      optind := optind + 1;
      return curChar as int;
    }

    method GetoptLong(argv: seq<string>, shortopts: string, longopts: seq<OptDef>) returns (r: int)
      requires Valid(argv, Now())
      modifies this
      ensures Valid(argv, Now())
      ensures (Now(), r) == Step(Table(shortopts, longopts), argv, old(Now()))
    {
      hide LongStep, ShortStep, Table;
      StepKeeps(Table(shortopts, longopts), argv, Now());
      optarg := None;
      if optind == 0 {
        optind := 1;
      }
      if optind >= |argv| {
        return -1;
      }
      var ok, opts := ParseOpts(shortopts, longopts);
      if !ok {
        return QUESTION;
      }
      var arg := argv[optind];
      optopt := 0;
      if nextchar.None? {
        if IsLong(arg) {
          r := LongOption(opts, argv);
          return;
        }
        if IsShort(arg) {
          nextchar := Some(1);
        }
      }
      if nextchar.Some? {
        r := ShortOption(opts, argv);
        return;
      }
      if arg == "--" {
        optind := optind + 1;
      }
      return -1;
    }

    /** The loop of a caller: it ends, and collects what ParseAll says. */
    method CollectOptions(argv: seq<string>, shortopts: string, longopts: seq<OptDef>) returns (seen: seq<Seen>)
      requires Valid(argv, Now()) && Table(shortopts, longopts).Some?
      modifies this
      ensures (seen, Now()) == ParseAll(Table(shortopts, longopts).value, argv, old(Now()))
    {
      hide Table, Step, ParseAll;
      ghost var opts := Table(shortopts, longopts).value;
      ghost var (all, end) := ParseAll(opts, argv, Now());
      seen := [];
      var code := 0;
      while code != -1
        invariant Valid(argv, Now())
        invariant if code == -1 then seen == all && Now() == end
                  else all == seen + ParseAll(opts, argv, Now()).0 && end == ParseAll(opts, argv, Now()).1
        decreases code != -1, Unread(argv, Now())
      {
        Unfold(opts, argv, Now());
        StepReads(opts, argv, Now());
        code := GetoptLong(argv, shortopts, longopts);
        if code != -1 {
          seen := seen + [Seen(code, optarg)];
        }
      }
    }
  }

  lemma Unfold(opts: seq<OptDef>, argv: seq<string>, st: State)
    requires Valid(argv, st)
    ensures var (next, code) := Step(Some(opts), argv, st);
      && Valid(argv, next)
      && ParseAll(opts, argv, st) ==
         if code == -1 then ([], next)
         else ([Seen(code, next.optarg)] + ParseAll(opts, argv, next).0, ParseAll(opts, argv, next).1)
  {
    hide Step;
    StepKeeps(Some(opts), argv, st);
    StepReads(opts, argv, st);
  }
}
