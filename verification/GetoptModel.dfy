/** What one call of getopt_long does to its state, and what every sequence of calls keeps. */
module GetoptModel {
  import opened Common

  const QUESTION: int := '?' as int

  /** An entry of the option table. A short option has an empty name, and its character as value. */
  datatype OptDef = OptDef(name: string, hasArg: bool, val: int)

  /** The globals: nextchar is a position in argv[optind]. */
  datatype State = State(optind: nat, nextchar: Option<nat>, optarg: Option<string>, optopt: int)

  // ---------------------------------------------------------------- the option table

  predicate IsAlnum(c: char) {
    'a' <= c <= 'z' || 'A' <= c <= 'Z' || '0' <= c <= '9'
  }

  /** The table entries of a short option string, or None when it is malformed. */
  function ShortOpts(s: string): Option<seq<OptDef>> {
    if s == [] then Some([])
    else if !IsAlnum(s[0]) then None
    else
      var hasArg := |s| > 1 && s[1] == ':';
      match ShortOpts(if hasArg then s[2..] else s[1..])
      case None => None
      case Some(rest) => Some([OptDef("", hasArg, s[0] as int)] + rest)
  }

  function Table(shortopts: string, longopts: seq<OptDef>): Option<seq<OptDef>> {
    match ShortOpts(shortopts)
    case None => None
    case Some(shorts) => Some(longopts + shorts)
  }

  function LookupLong(opts: seq<OptDef>, name: string): (r: Option<OptDef>)
    ensures r.Some? ==> r.value in opts && r.value.name == name
  {
    if opts == [] then None
    else if opts[0].name == name then Some(opts[0])
    else LookupLong(opts[1..], name)
  }

  function LookupShort(opts: seq<OptDef>, c: char): (r: Option<OptDef>)
    ensures r.Some? ==> r.value in opts && r.value.name == "" && r.value.val == c as int
  {
    if opts == [] then None
    else if opts[0].name == "" && opts[0].val == c as int then Some(opts[0])
    else LookupShort(opts[1..], c)
  }

  // ---------------------------------------------------------------- the kinds of words

  predicate IsLong(w: string) {
    |w| > 2 && w[0] == '-' && w[1] == '-'
  }

  predicate IsShort(w: string) {
    |w| > 1 && w[0] == '-' && w[1] != '-'
  }

  // ---------------------------------------------------------------- one call

  function LongStep(opts: seq<OptDef>, argv: seq<string>, i: nat): (State, int)
    requires i < |argv| && IsLong(argv[i])
  {
    var text := argv[i][2..];
    var len := Find(text, '=');
    match LookupLong(opts, text[..len])
    case None => (State(i + 1, None, None, 0), QUESTION)
    case Some(opt) =>
      if len < |text| then
        if opt.hasArg then (State(i + 1, None, Some(text[len + 1..]), opt.val), opt.val)
        else (State(i + 1, None, None, opt.val), QUESTION)
      else if !opt.hasArg then (State(i + 1, None, None, opt.val), opt.val)
      else if i + 1 < |argv| then (State(i + 2, None, Some(argv[i + 1]), opt.val), opt.val)
      else (State(i + 1, None, None, opt.val), QUESTION)
  }

  function ShortStep(opts: seq<OptDef>, argv: seq<string>, i: nat, p: nat): (State, int)
    requires i < |argv| && p < |argv[i]|
  {
    var c := argv[i][p];
    var isLast := p + 1 == |argv[i]|;
    var next := if isLast then State(i + 1, None, None, c as int) else State(i, Some(p + 1), None, c as int);
    match LookupShort(opts, c)
    case None => (next, QUESTION)
    case Some(opt) =>
      if !opt.hasArg then (next, c as int)
      else if !isLast then (State(i + 1, None, Some(argv[i][p + 1..]), c as int), c as int)
      else if i + 1 < |argv| then (State(i + 2, None, Some(argv[i + 1]), c as int), c as int)
      else (next, QUESTION)
  }

  /** The word a call looks at: the first call skips the program name. */
  function At(st: State): nat {
    if st.optind == 0 then 1 else st.optind
  }

  /** In the middle of a word, nextchar is at one of its characters. */
  predicate Valid(argv: seq<string>, st: State) {
    && st.optind <= Max(1, |argv|)
    && (st.nextchar.Some? ==> 0 < st.optind < |argv| && 0 < st.nextchar.value < |argv[st.optind]|)
  }

  function Step(table: Option<seq<OptDef>>, argv: seq<string>, st: State): (State, int)
    requires Valid(argv, st)
  {
    var i := At(st);
    if |argv| <= i then (State(i, st.nextchar, None, st.optopt), -1)
    else match table
      case None => (State(i, st.nextchar, None, st.optopt), QUESTION)
      case Some(opts) =>
        if st.nextchar.Some? then ShortStep(opts, argv, i, st.nextchar.value)
        else if IsLong(argv[i]) then LongStep(opts, argv, i)
        else if IsShort(argv[i]) then ShortStep(opts, argv, i, 1)
        else (State(if argv[i] == "--" then i + 1 else i, None, None, 0), -1)
  }

  // ------------------------------------------------------------ every call keeps the state valid, and makes progress

  lemma StepKeeps(table: Option<seq<OptDef>>, argv: seq<string>, st: State)
    requires Valid(argv, st)
    ensures Valid(argv, Step(table, argv, st).0)
    ensures At(st) <= Step(table, argv, st).0.optind
  {
    hide LookupLong, LookupShort, Find;
  }

  /** The characters, terminators included, from word i on. */
  function CharsFrom(argv: seq<string>, i: nat): nat
    decreases |argv| - i
  {
    if |argv| <= i then 0 else |argv[i]| + 1 + CharsFrom(argv, i + 1)
  }

  function Unread(argv: seq<string>, st: State): nat
    requires Valid(argv, st)
  {
    CharsFrom(argv, At(st)) - if st.nextchar.Some? then st.nextchar.value else 0
  }

  /** Every call that does not return -1 reads something, given a well-formed table. */
  lemma StepReads(opts: seq<OptDef>, argv: seq<string>, st: State)
    requires Valid(argv, st)
    ensures Step(Some(opts), argv, st).1 != -1 ==>
      Valid(argv, Step(Some(opts), argv, st).0) &&
      Unread(argv, Step(Some(opts), argv, st).0) < Unread(argv, st)
  {
    hide LookupLong, LookupShort, Find;
    StepKeeps(Some(opts), argv, st);
    var i := At(st);
    if i < |argv| {
      assert CharsFrom(argv, i) == |argv[i]| + 1 + CharsFrom(argv, i + 1);
    }
  }

  /** A malformed short option string stops all progress: the call answers '?' and changes nothing else. */
  lemma MalformedTableSticks(argv: seq<string>, st: State)
    requires Valid(argv, st) && At(st) < |argv|
    ensures Step(None, argv, st).1 == QUESTION && Step(None, argv, st).0.nextchar == st.nextchar
    ensures Valid(argv, Step(None, argv, st).0) && Unread(argv, Step(None, argv, st).0) == Unread(argv, st)
  {
  }

  /** No entry has the value that means the end. */
  predicate WellFormed(opts: seq<OptDef>) {
    forall i :: 0 <= i < |opts| ==> opts[i].val != -1
  }

  /** The calls end exactly at the end of the words, or at the first word that is no option. */
  lemma EndsExactly(opts: seq<OptDef>, argv: seq<string>, st: State)
    requires Valid(argv, st) && WellFormed(opts)
    ensures Step(Some(opts), argv, st).1 == -1 <==>
      |argv| <= At(st) || (st.nextchar.None? && !IsLong(argv[At(st)]) && !IsShort(argv[At(st)]))
  {
    hide Find;
  }

  // ---------------------------------------------------------------- calling until the end

  datatype Seen = Seen(code: int, optarg: Option<string>)

  function ParseAll(opts: seq<OptDef>, argv: seq<string>, st: State): (r: (seq<Seen>, State))
    requires Valid(argv, st)
    ensures Valid(argv, r.1)
    decreases Unread(argv, st)
  {
    StepKeeps(Some(opts), argv, st);
    StepReads(opts, argv, st);
    var (next, code) := Step(Some(opts), argv, st);
    if code == -1 then ([], next) else
      var (seen, end) := ParseAll(opts, argv, next);
      ([Seen(code, next.optarg)] + seen, end)
  }

  /** Whatever the words, the calls end: at the end of argv, at a word that is no option, or right after "--". */
  lemma {:induction false} WhereItEnds(opts: seq<OptDef>, argv: seq<string>, st: State)
    requires Valid(argv, st) && WellFormed(opts)
    ensures var (seen, end) := ParseAll(opts, argv, st);
      && |seen| <= Unread(argv, st)
      && end.nextchar.None? && At(st) <= end.optind
      && (|argv| <= end.optind || (0 < end.optind && argv[end.optind - 1] == "--") ||
          (!IsLong(argv[end.optind]) && !IsShort(argv[end.optind]) && argv[end.optind] != "--"))
    decreases Unread(argv, st)
  {
    hide LongStep, ShortStep;
    StepKeeps(Some(opts), argv, st);
    StepReads(opts, argv, st);
    EndsExactly(opts, argv, st);
    var (next, code) := Step(Some(opts), argv, st);
    if code != -1 {
      WhereItEnds(opts, argv, next);
    }
  }
}
