/** The in-place string splitter, against a pure split of the text it is given. */
module StringSplitter {
  import opened Common

  // ---------------------------------------------------------------- the pure split

  function Split(text: string, d: char): seq<string>
    decreases |text|
  {
    var k := Find(text, d);
    if k == |text| then [text] else [text[..k]] + Split(text[k + 1..], d)
  }

  function Join(tokens: seq<string>, d: char): string {
    if tokens == [] then [] else if |tokens| == 1 then tokens[0] else tokens[0] + [d] + Join(tokens[1..], d)
  }

  predicate Free(tokens: seq<string>, d: char) {
    forall i :: 0 <= i < |tokens| ==> d !in tokens[i]
  }

  /** Splitting yields delimiter-free tokens which, joined again, are the text. */
  lemma {:induction false} SplitThenJoin(text: string, d: char)
    ensures Split(text, d) != [] && Free(Split(text, d), d) && Join(Split(text, d), d) == text
    decreases |text|
  {
    hide Find;
    var k := Find(text, d);
    if k < |text| {
      SplitThenJoin(text[k + 1..], d);
      var rest := Split(text[k + 1..], d);
      assert Split(text, d)[1..] == rest;
      assert text == text[..k] + [d] + text[k + 1..];
    }
  }

  lemma {:induction false} FindIs(s: string, c: char, k: nat)
    requires k < |s| && s[k] == c && c !in s[..k]
    ensures Find(s, c) == k
    decreases k
  {
    if k != 0 {
      assert s[0] == s[..k][0] && s[1..][..k - 1] == s[..k][1..];
      FindIs(s[1..], c, k - 1);
    }
  }

  lemma FindAfter(a: string, d: char, b: string)
    requires d !in a
    ensures Find(a + [d] + b, d) == |a|
  {
    var s := a + [d] + b;
    assert s[..|a|] == a && s[|a|] == d;
    FindIs(s, d, |a|);
  }

  lemma SplitCons(a: string, d: char, b: string)
    requires d !in a
    ensures Split(a + [d] + b, d) == [a] + Split(b, d)
  {
    hide Find;
    var s := a + [d] + b;
    FindAfter(a, d, b);
    assert s[..|a|] == a && s[|a| + 1..] == b;
  }

  /** And there is no other way to cut the text: the split is determined by what Join gives back. */
  lemma {:induction false} JoinThenSplit(tokens: seq<string>, d: char)
    requires tokens != [] && Free(tokens, d)
    ensures Split(Join(tokens, d), d) == tokens
    decreases |tokens|
  {
    hide Split;
    if |tokens| == 1 {
      SplitNothing(tokens[0], d);
    } else {
      JoinThenSplit(tokens[1..], d);
      SplitCons(tokens[0], d, Join(tokens[1..], d));
      assert tokens == [tokens[0]] + tokens[1..];
    }
  }

  lemma SplitNothing(text: string, d: char)
    requires d !in text
    ensures Split(text, d) == [text]
  {
    assert Find(text, d) == |text|;
  }

  function DropEmpty(tokens: seq<string>): seq<string> {
    if tokens == [] then []
    else (if tokens[0] == "" then [] else [tokens[0]]) + DropEmpty(tokens[1..])
  }

  lemma DropEmptyCons(t: string, rest: seq<string>)
    ensures DropEmpty([t] + rest) == (if t == "" then [] else [t]) + DropEmpty(rest)
  {
    assert ([t] + rest)[1..] == rest;
  }

  lemma {:induction false} DropEmptyConcat(a: seq<string>, b: seq<string>)
    ensures DropEmpty(a + b) == DropEmpty(a) + DropEmpty(b)
    decreases |a|
  {
    if a == [] {
      assert a + b == b;
    } else {
      assert (a + b)[1..] == a[1..] + b;
      DropEmptyConcat(a[1..], b);
    }
  }

  /** Exactly the empty tokens are dropped. */
  lemma {:induction false} DropEmptyIs(tokens: seq<string>)
    ensures "" !in DropEmpty(tokens)
    ensures "" !in tokens ==> DropEmpty(tokens) == tokens
    ensures forall t :: t != "" ==> multiset(DropEmpty(tokens))[t] == multiset(tokens)[t]
    decreases |tokens|
  {
    if tokens != [] {
      DropEmptyIs(tokens[1..]);
      assert tokens == [tokens[0]] + tokens[1..];
    }
  }

  /** The text of a buffer that ends in NUL: all of it when NUL delimits, else up to the first NUL. */
  function Text(region: string, d: char): string
    requires region != []
  {
    if d == NUL then region[..|region| - 1] else region[..Find(region, NUL)]
  }

  function Tokens(region: string, d: char, allowEmpty: bool): seq<string> {
    if region == [] then []
    else if allowEmpty then Split(Text(region, d), d)
    else DropEmpty(Split(Text(region, d), d))
  }

  // ---------------------------------------------------------------- one token at a time

  /** No delimiter and no NUL before `k`. */
  predicate Plain(region: string, d: char, k: nat)
    requires k <= |region|
  {
    forall i :: 0 <= i < k ==> region[i] != d && region[i] != NUL
  }

  /** A delimiter at `k`: the first token ends there and the rest is split on its own. */
  lemma SplitAtDelimiter(region: string, d: char, k: nat)
    requires region != [] && region[|region| - 1] == NUL
    requires k < |region| && Plain(region, d, k) && region[k] == d
    ensures Split(Text(region, d), d)
            == [region[..k]] + (if k + 1 == |region| then [] else Split(Text(region[k + 1..], d), d))
  {
    var text, rest := Text(region, d), region[k + 1..];
    assert d !in region[..k];
    if k + 1 == |region| {
      assert text == region[..k];
      SplitNothing(text, d);
    } else {
      if d != NUL {
        var f := Find(rest, NUL);
        assert rest[|rest| - 1] == NUL;
        assert region[k + 1 + f] == NUL;
        assert NUL !in region[..k + 1 + f] by {
          assert region[..k + 1 + f] == region[..k] + [d] + rest[..f];
        }
        FindIs(region, NUL, k + 1 + f);
      }
      assert text == region[..k] + [d] + Text(rest, d);
      SplitCons(region[..k], d, Text(rest, d));
    }
  }

  /** A NUL at `k` that is not the delimiter: the first token is the last. */
  lemma SplitAtNul(region: string, d: char, k: nat)
    requires d != NUL && k < |region| && Plain(region, d, k) && region[k] == NUL
    ensures Split(Text(region, d), d) == [region[..k]]
  {
    assert NUL !in region[..k] && d !in region[..k];
    FindIs(region, NUL, k);
    SplitNothing(region[..k], d);
  }

  /** Skipping a delimiter where empty tokens are dropped. */
  lemma SkipDelimiter(region: string, d: char)
    requires region != [] && region[|region| - 1] == NUL && region[0] == d
    ensures Tokens(region, d, false) == Tokens(region[1..], d, false)
  {
    hide Split, Text;
    SplitAtDelimiter(region, d, 0);
    var rest := if 1 == |region| then [] else Split(Text(region[1..], d), d);
    assert region[..0] == "";
    DropEmptyCons(region[..0], rest);
  }

  lemma TokensAtDelimiter(region: string, d: char, k: nat, allowEmpty: bool)
    requires region != [] && region[|region| - 1] == NUL
    requires k < |region| && Plain(region, d, k) && region[k] == d && (allowEmpty || 0 < k)
    ensures Tokens(region, d, allowEmpty) == [region[..k]] + Tokens(region[k + 1..], d, allowEmpty)
  {
    hide Split, Text;
    SplitAtDelimiter(region, d, k);
    var rest := if k + 1 == |region| then [] else Split(Text(region[k + 1..], d), d);
    DropEmptyCons(region[..k], rest);
  }

  lemma TokensAtNul(region: string, d: char, k: nat, allowEmpty: bool)
    requires d != NUL && k < |region| && Plain(region, d, k) && region[k] == NUL
    ensures Tokens(region, d, allowEmpty) == if allowEmpty || 0 < k then [region[..k]] else []
  {
    hide Split, Text;
    SplitAtNul(region, d, k);
    DropEmptyCons(region[..k], []);
    assert [region[..k]] + [] == [region[..k]];
  }

  lemma NoMoreTokens(d: char, allowEmpty: bool)
    ensures Tokens([], d, allowEmpty) == []
  {
  }

  /** What the inner loop finds: the first token and the region that holds the others. */
  lemma FirstToken(region: string, d: char, k: nat, allowEmpty: bool)
    requires region != [] && region[|region| - 1] == NUL && (allowEmpty || region[0] != d)
    requires k < |region| && Plain(region, d, k) && (region[k] == d || region[k] == NUL)
    ensures var tokens := Tokens(region, d, allowEmpty);
            && (tokens != [] <==> allowEmpty || region[0] != NUL)
            && (tokens != [] ==>
                  && tokens[0] == region[..k]
                  && tokens[1..] == Tokens(if region[k] == d then region[k + 1..] else [], d, allowEmpty))
    ensures Tokens([], d, allowEmpty) == []
    ensures region[k] == d ==> Tokens(region, d, allowEmpty) != []
  {
    hide Tokens;
    NoMoreTokens(d, allowEmpty);
    if region[k] == d {
      TokensAtDelimiter(region, d, k, allowEmpty);
      var rest := Tokens(region[k + 1..], d, allowEmpty);
      assert ([region[..k]] + rest)[1..] == rest;
    } else {
      TokensAtNul(region, d, k, allowEmpty);
    }
  }

  lemma TokenBetween(buf: string, first: nat, stop: nat, end: nat, d: char, allowEmpty: bool)
    requires first <= stop < end <= |buf| && buf[end - 1] == NUL && (allowEmpty || buf[first] != d)
    requires Plain(buf[first..end], d, stop - first) && (buf[stop] == d || buf[stop] == NUL)
    ensures var tokens := Tokens(buf[first..end], d, allowEmpty);
            && (tokens != [] <==> allowEmpty || buf[first] != NUL) && (buf[stop] == d ==> tokens != [])
            && (tokens != [] ==>
                  && tokens[0] == buf[first..stop]
                  && tokens[1..] == Tokens(if buf[stop] == d then buf[stop + 1..end] else [], d, allowEmpty))
    ensures Tokens([], d, allowEmpty) == []
  {
    hide Tokens, Plain;
    var region, k := buf[first..end], stop - first;
    assert region[..k] == buf[first..stop] && region[k + 1..] == buf[stop + 1..end];
    FirstToken(region, d, k, allowEmpty);
  }

  // ---------------------------------------------------------------- the splitter

  class StringSplitter {
    const buf: array<char>
    const delimiter: char
    const allowEmpty: bool
    var next: nat
    var end: nat
    var cur: Option<nat>
    var curSize: nat

    ghost predicate Valid()
      reads this, buf
    {
      next <= end <= buf.Length && (next < end ==> buf[end - 1] == NUL)
    }

    /** The tokens that are still to come. */
    ghost function Remaining(): seq<string>
      requires Valid()
      reads this, buf
    {
      Tokens(buf[next..end], delimiter, allowEmpty)
    }

    /** Splits `size` characters of `buf` from `begin` on; the last one is overwritten by NUL. */
    constructor FromBuffer(buf: array<char>, begin: nat, size: nat, delimiter: char, allowEmpty: bool)
      requires begin + size <= buf.Length
      modifies buf
      ensures Valid() && this.buf == buf && next == begin && end == begin + size && cur == None
      ensures this.delimiter == delimiter && this.allowEmpty == allowEmpty
      ensures buf[..] == old(if size == 0 then buf[..] else buf[..][begin + size - 1 := NUL])
    {
      this.buf, this.delimiter, this.allowEmpty := buf, delimiter, allowEmpty;
      next, end, cur, curSize := begin, begin + size, None, 0;
      new;
      if size > 0 {
        buf[begin + size - 1] := NUL;
      }
    }

    /** Splits a copy of a string, terminated by NUL. */
    constructor FromString(str: string, delimiter: char, allowEmpty: bool)
      ensures Valid() && fresh(buf) && cur == None && this.delimiter == delimiter && this.allowEmpty == allowEmpty
      ensures Remaining() == Tokens(str + [NUL], delimiter, allowEmpty)
    {
      var b := new char[|str| + 1](i requires 0 <= i => if i < |str| then str[i] else NUL);
      buf, this.delimiter, this.allowEmpty := b, delimiter, allowEmpty;
      next, end, cur, curSize := 0, |str| + 1, None, 0;
      new;
      assert b[0..|str| + 1] == str + [NUL];
    }

    /**
     Moves on to the next token, which is NUL-terminated in the buffer. Only delimiters between the
     old position and the new one are overwritten, by NUL.
     */
    method Next() returns (found: bool)
      requires Valid()
      modifies this`next, this`cur, this`curSize, buf
      ensures Valid() && found == (old(Remaining()) != [])
      ensures found ==>
                && cur.Some? && old(next) <= cur.value && cur.value + curSize < end
                && cur.value + curSize < next
                && buf[cur.value..cur.value + curSize] == old(Remaining())[0]
                && buf[cur.value + curSize] == NUL
                && Remaining() == old(Remaining())[1..]
      ensures !found ==> cur == None && curSize == 0 && Remaining() == []
      ensures old(next) <= next
      ensures forall i :: 0 <= i < buf.Length ==>
                buf[i] == old(buf[i]) || (old(next) <= i < next && old(buf[i]) == delimiter && buf[i] == NUL)
    {
      hide Tokens;
      ghost var tokens := Remaining();
      while next < end && buf[next] == delimiter && !allowEmpty
        invariant Valid() && old(next) <= next && unchanged(buf) && Remaining() == tokens
      {
        SkipDelimiter(buf[next..end], delimiter);
        assert buf[next..end][1..] == buf[next + 1..end];
        next := next + 1;
      }
      if next < end {
        found := TakeToken();
        if found {
          return;
        }
      }
      NoMoreTokens(delimiter, allowEmpty);
      assert next == end ==> buf[next..end] == [];
      cur, curSize := None, 0;
      return false;
    }

    /** The inner loop: finds the end of the token that starts at `next`. */
    method TakeToken() returns (found: bool)
      requires Valid() && next < end && (allowEmpty || buf[next] != delimiter)
      modifies this`next, this`cur, this`curSize, buf
      ensures Valid() && found == (old(Remaining()) != []) && old(next) < next
      ensures found ==>
                && cur == Some(old(next)) && cur.value + curSize < end && cur.value + curSize < next
                && buf[cur.value..cur.value + curSize] == old(Remaining())[0]
                && buf[cur.value + curSize] == NUL
                && Remaining() == old(Remaining())[1..]
      ensures !found ==> Remaining() == []
      ensures forall i :: 0 <= i < buf.Length ==>
                buf[i] == old(buf[i]) || (old(next) <= i < next && old(buf[i]) == delimiter && buf[i] == NUL)
    {
      hide Tokens, Plain;
      ghost var was := buf[..];
      var first := next;
      var stop := FindStop();
      cur, curSize := Some(first), stop - first;
      assert buf[first..end] == was[first..end];
      TokenBetween(was, first, stop, end, delimiter, allowEmpty);
      if buf[stop] == delimiter {
        buf[stop] := NUL;
        next := stop + 1;
        assert buf[next..end] == was[next..end];
      } else {
        next := end;
        assert buf[next..end] == [];
      }
      assert buf[first..stop] == was[first..stop];
      found := buf[first] != NUL || allowEmpty;
    }

    /** Scans to the first delimiter or NUL. */
    method FindStop() returns (stop: nat)
      requires Valid() && next < end
      ensures next <= stop < end && (buf[stop] == delimiter || buf[stop] == NUL)
      ensures buf[stop] == buf[next..end][stop - next] && Plain(buf[next..end], delimiter, stop - next)
      ensures next < stop ==> buf[next] != NUL
    {
      stop := next;
      while buf[stop] != delimiter && buf[stop] != NUL
        invariant next <= stop < end
        invariant forall i :: next <= i < stop ==> buf[i] != delimiter && buf[i] != NUL
        decreases end - stop
      {
        stop := stop + 1;
      }
    }
  }

  // ---------------------------------------------------------------- whole runs

  /** Runs a splitter to exhaustion: it yields exactly the tokens of its text. */
  method SplitAll(s: StringSplitter) returns (tokens: seq<string>)
    requires s.Valid()
    modifies s`next, s`cur, s`curSize, s.buf
    ensures s.Valid() && tokens == old(s.Remaining()) && s.cur == None
    ensures forall i :: 0 <= i < s.buf.Length && !(old(s.next) <= i < s.end) ==> s.buf[i] == old(s.buf[i])
  {
    hide Tokens;
    tokens := [];
    ghost var all := s.Remaining();
    while true
      invariant s.Valid() && old(s.next) <= s.next && all == tokens + s.Remaining()
      invariant forall i :: 0 <= i < s.buf.Length && !(old(s.next) <= i < s.end) ==> s.buf[i] == old(s.buf[i])
      decreases |s.Remaining()|
    {
      ghost var before := s.Remaining();
      var found := s.Next();
      if !found {
        return;
      }
      assert before == [before[0]] + before[1..];
      tokens := tokens + [s.buf[s.cur.value..s.cur.value + s.curSize]];
    }
  }

  /**
   A nested splitter on the current token, run to exhaustion, yields the split of that token and
   leaves the outer splitter's remaining tokens as they were.
   */
  method SplitToken(outer: StringSplitter, delimiter: char, allowEmpty: bool) returns (tokens: seq<string>)
    requires outer.Valid() && outer.cur.Some?
    requires outer.cur.value + outer.curSize < outer.next && outer.buf[outer.cur.value + outer.curSize] == NUL
    modifies outer.buf
    ensures outer.Valid() && outer.Remaining() == old(outer.Remaining())
    ensures tokens == Tokens(old(outer.buf[outer.cur.value..outer.cur.value + outer.curSize]) + [NUL], delimiter,
            allowEmpty)
  {
    hide Tokens;
    var begin, size := outer.cur.value, outer.curSize + 1;
    ghost var token, rest := outer.buf[begin..begin + size - 1], outer.buf[outer.next..outer.end];
    var inner := new StringSplitter.FromBuffer(outer.buf, begin, size, delimiter, allowEmpty);
    assert outer.buf[begin..begin + size] == token + [NUL];
    tokens := SplitAll(inner);
    assert outer.buf[outer.next..outer.end] == rest;
  }

  /** The tokens of a string. */
  method SplitString(str: string, delimiter: char, allowEmpty: bool) returns (tokens: seq<string>)
    ensures var all := Split(if delimiter == NUL then str else str[..Find(str, NUL)], delimiter);
            tokens == if allowEmpty then all else DropEmpty(all)
  {
    var s := new StringSplitter.FromString(str, delimiter, allowEmpty);
    tokens := SplitAll(s);
    TextOfString(str, delimiter);
  }

  lemma TextOfString(str: string, d: char)
    ensures Text(str + [NUL], d) == if d == NUL then str else str[..Find(str, NUL)]
  {
    var region, k := str + [NUL], Find(str, NUL);
    assert region[..k] == str[..k] && region[k] == NUL;
    FindIs(region, NUL, k);
  }
}
