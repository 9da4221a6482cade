/**
 What each call of getopt_long answers, by the words and the option table: which characters and names
 are options, where their arguments come from, and what is answered with '?'.
 */
module GetoptAnswers {
  import opened Common
  import opened GetoptModel
  import RoundTrip = GetoptRoundTrip

  // ---------------------------------------------------------------- the table

  /** A letter or digit, or the colon behind one. */
  predicate GoodAt(s: string, i: nat)
    requires i < |s|
  {
    IsAlnum(s[i]) || (s[i] == ':' && 0 < i && IsAlnum(s[i - 1]))
  }

  /** The string is made of letters and digits, each followed by at most one colon. */
  predicate WellFormedShorts(s: string) {
    forall i :: 0 <= i < |s| ==> GoodAt(s, i)
  }

  /** The entry for the character at `i`: it takes an argument if a colon follows. */
  function EntryAt(s: string, i: nat): OptDef
    requires i < |s|
  {
    OptDef("", i + 1 < |s| && s[i + 1] == ':', s[i] as int)
  }

  /** The entries of the letters and digits from `i` on, in order. */
  function EntriesFrom(s: string, i: nat): seq<OptDef>
    decreases |s| - i
  {
    if |s| <= i then []
    else (if IsAlnum(s[i]) then [EntryAt(s, i)] else []) + EntriesFrom(s, i + 1)
  }

  predicate WellFormedFrom(s: string, i: nat) {
    (i < |s| ==> IsAlnum(s[i])) && forall j :: i < j < |s| ==> GoodAt(s, j)
  }

  lemma ColonIsNoLetter()
    ensures !IsAlnum(':')
  {
  }

  /** One entry is well-formed, and what comes behind it is. */
  lemma WellFormedOne(s: string, i: nat)
    requires i < |s| && IsAlnum(s[i])
    ensures var n := if i + 1 < |s| && s[i + 1] == ':' then i + 2 else i + 1;
            WellFormedFrom(s, i) <==> WellFormedFrom(s, n)
  {
    hide IsAlnum;
    ColonIsNoLetter();
    var n := if i + 1 < |s| && s[i + 1] == ':' then i + 2 else i + 1;
    if WellFormedFrom(s, i) {
      assert n < |s| ==> GoodAt(s, n);
    }
    if WellFormedFrom(s, n) {
      forall j | i < j < |s|
        ensures GoodAt(s, j)
      {
        assert j < n || j == n || n < j;
      }
    }
  }

  lemma {:induction false} ShortOptsFrom(s: string, i: nat)
    requires i <= |s|
    ensures ShortOpts(s[i..]).Some? <==> WellFormedFrom(s, i)
    ensures ShortOpts(s[i..]).Some? ==> ShortOpts(s[i..]).value == EntriesFrom(s, i)
    decreases |s| - i
  {
    hide IsAlnum, WellFormedFrom;
    if i < |s| && IsAlnum(s[i]) {
      var rest := s[i..];
      WellFormedOne(s, i);
      ColonIsNoLetter();
      if i + 1 < |s| && s[i + 1] == ':' {
        assert rest[2..] == s[i + 2..];
        ShortOptsFrom(s, i + 2);
        assert EntriesFrom(s, i + 1) == [] + EntriesFrom(s, i + 2);
      } else {
        assert rest[1..] == s[i + 1..];
        ShortOptsFrom(s, i + 1);
      }
    } else {
      NotWellFormed(s, i);
    }
  }

  lemma NotWellFormed(s: string, i: nat)
    requires i <= |s|
    ensures i < |s| && !IsAlnum(s[i]) ==> !WellFormedFrom(s, i)
    ensures i == |s| ==> WellFormedFrom(s, i)
    ensures WellFormedFrom(s, 0) <==> WellFormedShorts(s)
  {
    hide IsAlnum;
    if WellFormedShorts(s) && s != [] {
      assert GoodAt(s, 0);
    }
    if WellFormedFrom(s, 0) {
      assert forall j :: 0 <= j < |s| ==> j == 0 || GoodAt(s, j);
    }
  }

  /**
   The table: there is one exactly when the short option string is well-formed. It has the long
   options, then one nameless entry for each letter or digit, which takes an argument if and only if
   a colon follows.
   */
  lemma TableIs(shortopts: string, longopts: seq<OptDef>)
    ensures Table(shortopts, longopts).Some? <==> WellFormedShorts(shortopts)
    ensures WellFormedShorts(shortopts) ==> Table(shortopts, longopts) == Some(longopts + EntriesFrom(shortopts, 0))
  {
    hide IsAlnum, ShortOpts;
    ShortOptsFrom(shortopts, 0);
    NotWellFormed(shortopts, 0);
    assert shortopts[0..] == shortopts;
  }

  /** The letters and digits of ASCII. */
  lemma AlnumIs(c: char)
    ensures var n := c as int; IsAlnum(c) <==> 0x30 <= n < 0x3a || 0x41 <= n < 0x5b || 0x61 <= n < 0x7b
  {
  }

  // ---------------------------------------------------------------- words

  /** A dash and something that does not begin with a dash. */
  lemma ShortWordsAre(w: string)
    ensures IsShort(w) <==> exists c: char, rest: string :: c != '-' && w == "-" + [c] + rest
  {
    if IsShort(w) {
      assert w == "-" + [w[1]] + w[2..];
    }
  }

  /** Two dashes and something. */
  lemma LongWordsAre(w: string)
    ensures IsLong(w) <==> exists rest: string :: rest != "" && w == "--" + rest
  {
    if IsLong(w) {
      assert w == "--" + w[2..];
    }
  }

  // ---------------------------------------------------------------- entries

  predicate IsShortOf(def: OptDef, c: char) {
    def.name == "" && def.val == c as int
  }

  /** The first entry without a name that has this character. */
  predicate FirstShort(opts: seq<OptDef>, k: int, c: char) {
    0 <= k < |opts| && IsShortOf(opts[k], c) && forall j :: 0 <= j < k ==> !IsShortOf(opts[j], c)
  }

  predicate FirstLong(opts: seq<OptDef>, k: int, name: string) {
    0 <= k < |opts| && opts[k].name == name && forall j :: 0 <= j < k ==> opts[j].name != name
  }

  lemma {:induction false} LookupShortIsFirst(opts: seq<OptDef>, c: char)
    ensures forall k :: FirstShort(opts, k, c) ==> LookupShort(opts, c) == Some(opts[k])
    ensures (forall k :: 0 <= k < |opts| ==> !IsShortOf(opts[k], c)) ==> LookupShort(opts, c) == None
  {
    if opts != [] && !IsShortOf(opts[0], c) {
      var rest := opts[1..];
      LookupShortIsFirst(rest, c);
      assert forall j :: 0 <= j < |rest| ==> rest[j] == opts[j + 1];
      forall k | FirstShort(opts, k, c)
        ensures FirstShort(rest, k - 1, c)
      {
      }
    }
  }

  lemma {:induction false} LookupLongIsFirst(opts: seq<OptDef>, name: string)
    ensures forall k :: FirstLong(opts, k, name) ==> LookupLong(opts, name) == Some(opts[k])
    ensures (forall k :: 0 <= k < |opts| ==> opts[k].name != name) ==> LookupLong(opts, name) == None
  {
    if opts != [] && opts[0].name != name {
      var rest := opts[1..];
      LookupLongIsFirst(rest, name);
      assert forall j :: 0 <= j < |rest| ==> rest[j] == opts[j + 1];
      forall k | FirstLong(opts, k, name)
        ensures FirstLong(rest, k - 1, name)
      {
      }
    }
  }

  // ---------------------------------------------------------------- short options

  /** A call looks at character p of word i: inside a group, or at the start of a word -abc. */
  predicate LooksAt(argv: seq<string>, st: State, i: nat, p: nat) {
    && Valid(argv, st) && At(st) == i < |argv|
    && if st.nextchar.Some? then st.nextchar == Some(p) else IsShort(argv[i]) && p == 1
  }

  /** Reading goes on with the next character of the word, or with the next word. */
  predicate GoesOn(argv: seq<string>, i: nat, p: nat, next: State)
    requires i < |argv| && p < |argv[i]|
  {
    if p + 1 < |argv[i]| then next.optind == i && next.nextchar == Some(p + 1)
    else next.optind == i + 1 && next.nextchar == None
  }

  predicate AtWord(next: State, i: nat) {
    next.optind == i && next.nextchar == None
  }

  /** The answer to a character that has an entry. */
  predicate AnswerTo(def: OptDef, argv: seq<string>, i: nat, p: nat, next: State, code: int)
    requires i < |argv| && p < |argv[i]|
  {
    var c, tail := argv[i][p], argv[i][p + 1..];
    if !def.hasArg then code == c as int && next.optarg == None && GoesOn(argv, i, p, next)
    else if tail != "" then code == c as int && next.optarg == Some(tail) && AtWord(next, i + 1)
    else if i + 1 < |argv| then code == c as int && next.optarg == Some(argv[i + 1]) && AtWord(next, i + 2)
    else code == QUESTION && next.optarg == None && AtWord(next, i + 1)
  }

  lemma LooksAtIsShortStep(opts: seq<OptDef>, argv: seq<string>, st: State, i: nat, p: nat)
    requires LooksAt(argv, st, i, p)
    ensures p < |argv[i]| && Step(Some(opts), argv, st) == ShortStep(opts, argv, i, p)
  {
    hide ShortStep, LongStep;
  }

  lemma FoundShort(opts: seq<OptDef>, argv: seq<string>, i: nat, p: nat, k: nat)
    requires i < |argv| && p < |argv[i]| && FirstShort(opts, k, argv[i][p])
    ensures var (next, code) := ShortStep(opts, argv, i, p); AnswerTo(opts[k], argv, i, p, next, code)
  {
    hide LookupShort;
    LookupShortIsFirst(opts, argv[i][p]);
  }

  lemma UnknownShort(opts: seq<OptDef>, argv: seq<string>, i: nat, p: nat)
    requires i < |argv| && p < |argv[i]| && forall k :: 0 <= k < |opts| ==> !IsShortOf(opts[k], argv[i][p])
    ensures var (next, code) := ShortStep(opts, argv, i, p);
            code == QUESTION && next.optarg == None && GoesOn(argv, i, p, next)
  {
    hide LookupShort;
    LookupShortIsFirst(opts, argv[i][p]);
  }

  /**
   The character is an option exactly when the table has a nameless entry for it, and the argument,
   if it takes one, is the rest of the word or else the next word. Everything else is answered with
   '?', and optopt is the character in any case.
   */
  lemma ShortAnswers(opts: seq<OptDef>, argv: seq<string>, st: State, i: nat, p: nat)
    requires LooksAt(argv, st, i, p)
    ensures p < |argv[i]|
    ensures var (next, code) := Step(Some(opts), argv, st);
            && next.optopt == argv[i][p] as int
            && ((forall k :: 0 <= k < |opts| ==> !IsShortOf(opts[k], argv[i][p])) ==>
                  code == QUESTION && next.optarg == None && GoesOn(argv, i, p, next))
            && (forall k :: FirstShort(opts, k, argv[i][p]) ==> AnswerTo(opts[k], argv, i, p, next, code))
  {
    LooksAtIsShortStep(opts, argv, st, i, p);
    assert ShortStep(opts, argv, i, p).0.optopt == argv[i][p] as int by { hide LookupShort; }
    hide Step, ShortStep, AnswerTo, FirstShort, IsShortOf, GoesOn;
    if forall k :: 0 <= k < |opts| ==> !IsShortOf(opts[k], argv[i][p]) {
      UnknownShort(opts, argv, i, p);
    }
    forall k | FirstShort(opts, k, argv[i][p])
      ensures AnswerTo(opts[k], argv, i, p, Step(Some(opts), argv, st).0, Step(Some(opts), argv, st).1)
    {
      FoundShort(opts, argv, i, p, k);
    }
  }

  // ---------------------------------------------------------------- long options

  /** The word --name, or --name=value. */
  function LongWord(name: string, value: Option<string>): string {
    "--" + name + if value.Some? then "=" + value.value else ""
  }

  /** Every long word is of that form, with no '=' in the name. */
  lemma EveryLongWord(w: string) returns (name: string, value: Option<string>)
    requires IsLong(w)
    ensures w == LongWord(name, value) && '=' !in name
  {
    var text := w[2..];
    var k := Find(text, '=');
    name, value := text[..k], if k < |text| then Some(text[k + 1..]) else None;
    assert w == "--" + text;
    assert k < |text| ==> text == text[..k] + ("=" + text[k + 1..]);
  }

  /** What the parser makes of such a word. */
  lemma LongParts(w: string, name: string, value: Option<string>)
    requires w == LongWord(name, value) && '=' !in name && IsLong(w)
    ensures var text := w[2..];
            && Find(text, '=') == |name| <= |text| && text[..|name|] == name && (|name| < |text| <==> value.Some?)
            && (value.Some? ==> text[|name| + 1..] == value.value)
  {
    hide Find;
    var rest := if value.Some? then "=" + value.value else "";
    RoundTrip.NameOf(name, rest);
    assert w[2..] == name + rest;
  }

  /** The answer to a name that has an entry. */
  predicate LongAnswerTo(def: OptDef, value: Option<string>, argv: seq<string>, i: nat, next: State, code: int) {
    && next.optopt == def.val
    && if def.hasArg then
         if value.Some? then code == def.val && next.optarg == value && AtWord(next, i + 1)
         else if i + 1 < |argv| then code == def.val && next.optarg == Some(argv[i + 1]) && AtWord(next, i + 2)
         else code == QUESTION && next.optarg == None && AtWord(next, i + 1)
       else if value.None? then code == def.val && next.optarg == None && AtWord(next, i + 1)
       else code == QUESTION && next.optarg == None && AtWord(next, i + 1)
  }

  lemma FoundLong(opts: seq<OptDef>, argv: seq<string>, i: nat, name: string, value: Option<string>, k: nat)
    requires i < |argv| && argv[i] == LongWord(name, value) && '=' !in name && IsLong(argv[i])
    requires FirstLong(opts, k, name)
    ensures var (next, code) := LongStep(opts, argv, i); LongAnswerTo(opts[k], value, argv, i, next, code)
  {
    hide LookupLong, Find, LongWord, IsLong;
    LongParts(argv[i], name, value);
    LookupLongIsFirst(opts, name);
  }

  lemma UnknownLong(opts: seq<OptDef>, argv: seq<string>, i: nat, name: string, value: Option<string>)
    requires i < |argv| && argv[i] == LongWord(name, value) && '=' !in name && IsLong(argv[i])
    requires forall k :: 0 <= k < |opts| ==> opts[k].name != name
    ensures var (next, code) := LongStep(opts, argv, i);
            code == QUESTION && next.optopt == 0 && next.optarg == None && AtWord(next, i + 1)
  {
    hide LookupLong, Find, LongWord, IsLong;
    LongParts(argv[i], name, value);
    LookupLongIsFirst(opts, name);
  }

  /**
   The name is an option exactly when the table has an entry with it, and the argument must be there
   if and only if the entry takes one: after the '=', or as the next word. Everything else is answered
   with '?'; optopt is the value of the entry, and zero if there is none.
   */
  lemma LongAnswers(opts: seq<OptDef>, argv: seq<string>, st: State, name: string, value: Option<string>)
    requires Valid(argv, st) && st.nextchar.None? && At(st) < |argv|
    requires argv[At(st)] == LongWord(name, value) && '=' !in name && IsLong(argv[At(st)])
    ensures var (next, code) := Step(Some(opts), argv, st);
            var i := At(st);
            && ((forall k :: 0 <= k < |opts| ==> opts[k].name != name) ==>
                  code == QUESTION && next.optopt == 0 && next.optarg == None && AtWord(next, i + 1))
            && (forall k :: FirstLong(opts, k, name) ==> LongAnswerTo(opts[k], value, argv, i, next, code))
  {
    hide LongStep, LongWord, IsLong, LongAnswerTo;
    if forall k :: 0 <= k < |opts| ==> opts[k].name != name {
      UnknownLong(opts, argv, At(st), name, value);
    }
    forall k | FirstLong(opts, k, name)
      ensures LongAnswerTo(opts[k], value, argv, At(st), Step(Some(opts), argv, st).0, Step(Some(opts), argv, st).1)
    {
      FoundLong(opts, argv, At(st), name, value, k);
    }
  }

  // ---------------------------------------------------------------- the end

  /** The answer -1 leaves optind at the first word that is no option, or behind a "--". */
  lemma EndAnswers(opts: seq<OptDef>, argv: seq<string>, st: State)
    requires Valid(argv, st) && st.nextchar.None?
    requires At(st) < |argv| ==> !IsLong(argv[At(st)]) && !IsShort(argv[At(st)])
    ensures var (next, code) := Step(Some(opts), argv, st);
            && code == -1 && next.optarg == None
            && AtWord(next, if At(st) < |argv| && argv[At(st)] == "--" then At(st) + 1 else At(st))
  {
  }
}
