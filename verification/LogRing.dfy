/** The ring of the last log messages, and what reading it back yields. */
module LogRing {
  import opened Common

  const ENTRIES: nat := 8
  const MSG_LEN: nat := 256

  // ---------------------------------------------------------------- the text that is kept and printed

  /** What "%.*s" prints of a string view. */
  function CString(s: string): (r: string)
    ensures NUL !in r && r <= s && (|r| < |s| ==> s[|r|] == NUL)
  {
    s[..Find(s, NUL)]
  }

  function Take(s: string, n: nat): string {
    if |s| <= n then s else s[..n]
  }

  /** The message that Append keeps. */
  function Message(tstamp: string, source: string, msg: string): (t: string)
    ensures 0 < |t| < MSG_LEN && NUL !in t
  {
    Take(CString(tstamp) + CString(source) + " " + CString(msg), MSG_LEN - 1)
  }

  /** Timestamp, source, a space and the message, each up to its first NUL, and 255 characters of that. */
  lemma MessageIs(tstamp: string, source: string, msg: string)
    ensures var t, a, b, m := Message(tstamp, source, msg), CString(tstamp), CString(source), CString(msg);
            && |t| == Min(|a| + |b| + 1 + |m|, 255)
            && forall k :: 0 <= k < |t| ==>
                 t[k] == if k < |a| then a[k]
                         else if k < |a| + |b| then b[k - |a|]
                         else if k == |a| + |b| then ' '
                         else m[k - |a| - |b| - 1]
  {
    hide CString;
  }

  function Sanitized(c: char): char {
    if ' ' <= c <= '~' then c else '?'
  }

  /** A message as Read prints it. */
  function Line(t: string): (l: string)
    ensures |l| == |t| + 1 && l[|t|] == '\n' && forall i :: 0 <= i < |t| ==> l[i] == Sanitized(t[i])
  {
    seq(|t|, i requires 0 <= i < |t| => Sanitized(t[i])) + "\n"
  }

  /** Printable ASCII is printed as it is, anything else as a question mark, and only the end is a newline. */
  lemma LineIsPrintable(t: string, i: nat)
    requires i < |t|
    ensures Line(t)[i] == if 0x20 <= t[i] as int < 0x7f then t[i] else '?'
    ensures Line(t)[i] != '\n' && Line(t)[|t|] == '\n'
  {
  }

  function Lines(messages: seq<string>): string {
    if messages == [] then [] else Lines(messages[..|messages| - 1]) + Line(messages[|messages| - 1])
  }

  /** The most recent messages, oldest first. */
  function LastFew(history: seq<string>): seq<string> {
    if |history| <= ENTRIES then history else history[|history| - ENTRIES..]
  }

  lemma LastFewAre(history: seq<string>)
    ensures var r := LastFew(history);
            |r| == Min(|history|, 8) && forall i :: 0 <= i < |r| ==> r[i] == history[|history| - |r| + i]
  {
  }

  // ---------------------------------------------------------------- slots

  lemma SlotOfCounter(n: nat)
    ensures n % TWO_TO_THE_32 % ENTRIES == n % ENTRIES
  {
    var q := n / TWO_TO_THE_32;
    assert n == TWO_TO_THE_32 * q + n % TWO_TO_THE_32;
    assert n == ENTRIES * (q * (TWO_TO_THE_32 / ENTRIES)) + n % TWO_TO_THE_32;
  }

  /** The slot that Read visits at a position, from the counter that wrapped around. */
  lemma SlotOfVisit(n: nat, pos: nat)
    requires pos < ENTRIES
    ensures var slot := (n % TWO_TO_THE_32 + pos) % TWO_TO_THE_32 % ENTRIES;
            slot == if n - ENTRIES + pos < 0 then n + pos else (n - ENTRIES + pos) % ENTRIES
  {
    var m := n % TWO_TO_THE_32;
    SlotOfCounter(m + pos);
    SlotOfCounter(n);
    ModAdd(m, n, pos);
  }

  lemma ModAdd(a: nat, b: nat, pos: nat)
    requires a % ENTRIES == b % ENTRIES
    ensures (a + pos) % ENTRIES == (b + pos) % ENTRIES
    ensures ENTRIES <= b + pos ==> (b + pos) % ENTRIES == (b - ENTRIES + pos) % ENTRIES
  {
  }

  /** Within eight consecutive messages every slot is used once. */
  lemma SlotsDiffer(a: nat, b: nat)
    requires a < b < a + ENTRIES
    ensures a % ENTRIES != b % ENTRIES
  {
  }

  class LogRingBuffer {
    const events: array2<char>
    var eventSlot: nat
    ghost var history: seq<string>

    /** The slot holds the message, as a NUL-terminated string. */
    ghost predicate Holds(slot: nat, t: string)
      requires events.Length0 == ENTRIES && events.Length1 == MSG_LEN && slot < ENTRIES
      reads events
    {
      && |t| < MSG_LEN && NUL !in t
      && (forall j :: 0 <= j < |t| ==> events[slot, j] == t[j])
      && events[slot, |t|] == NUL
    }

    ghost predicate Valid()
      reads this, events
    {
      && events.Length0 == ENTRIES && events.Length1 == MSG_LEN
      && eventSlot == |history| % TWO_TO_THE_32
      && (forall h :: 0 <= h < |history| ==> history[h] != [])
      && (forall h :: |history| - ENTRIES <= h < |history| && 0 <= h ==> Holds(h % ENTRIES, history[h]))
      && (forall i :: |history| <= i < ENTRIES ==> Holds(i, []))
    }

    constructor ()
      ensures Valid() && history == [] && fresh(events)
    {
      events := new char[ENTRIES, MSG_LEN]((_, _) => NUL);
      eventSlot, history := 0, [];
    }

    /** snprintf into a slot: at most MSG_LEN - 1 characters and a NUL; the rest of the slot stays. */
    method Print(slot: nat, text: string)
      requires events.Length0 == ENTRIES && events.Length1 == MSG_LEN && slot < ENTRIES && NUL !in text
      modifies events
      ensures Holds(slot, Take(text, MSG_LEN - 1))
      ensures forall i, j :: 0 <= i < ENTRIES && i != slot && 0 <= j < MSG_LEN ==> events[i, j] == old(events[i, j])
    {
      var t := if |text| <= MSG_LEN - 1 then text else text[..MSG_LEN - 1];
      for j := 0 to |t|
        invariant forall k :: 0 <= k < j ==> events[slot, k] == t[k]
        invariant forall i, k :: 0 <= i < ENTRIES && i != slot && 0 <= k < MSG_LEN ==> events[i, k] == old(events[i, k])
      {
        events[slot, j] := t[j];
      }
      events[slot, |t|] := NUL;
    }

    method Append(tstamp: string, source: string, msg: string)
      requires Valid()
      modifies this`eventSlot, this`history, events
      ensures Valid() && history == old(history) + [Message(tstamp, source, msg)]
    {
      var slot := eventSlot;
      eventSlot := (eventSlot + 1) % TWO_TO_THE_32;
      slot := slot % ENTRIES;
      SlotOfCounter(|history|);
      var text := CString(tstamp) + CString(source) + " " + CString(msg);
      Print(slot, text);
      ghost var n := |history|;
      history := history + [Take(text, MSG_LEN - 1)];
      NextCounter(n);
      forall h | n + 1 - ENTRIES <= h < n + 1 && 0 <= h
        ensures Holds(h % ENTRIES, history[h])
      {
        if h < n {
          SlotsDiffer(h, n);
          assert old(Holds(h % ENTRIES, history[h]));
        }
      }
      forall i | n + 1 <= i < ENTRIES
        ensures Holds(i, [])
      {
        assert old(Holds(i, []));
      }
    }

    /** Copies one slot to dst[at..len], as a line, or as much of it as fits. */
    method CopyLine(slot: nat, dst: array<char>, at: nat, len: nat, ghost t: string) returns (written: nat)
      requires events.Length0 == ENTRIES && events.Length1 == MSG_LEN && slot < ENTRIES && Holds(slot, t)
      requires at <= len <= dst.Length
      modifies dst
      ensures written == Min(at + |t| + 1, len)
      ensures forall k :: at <= k < Min(at + |t| + 1, len - 1) ==> dst[k] == Line(t)[k - at]
      ensures forall k :: (0 <= k < at || len <= k < dst.Length) ==> dst[k] == old(dst[k])
    {
      hide Line;
      written := at;
      var limit := Min(len - at, MSG_LEN);
      var i := 0;
      while i < limit
        invariant 0 <= i <= limit && i <= |t| && written == at + i
        invariant i == limit ==> limit == 0
        invariant forall k :: at <= k < at + i ==> dst[k] == Line(t)[k - at]
        invariant forall k :: (0 <= k < at || len <= k < dst.Length) ==> dst[k] == old(dst[k])
      {
        var c := events[slot, i];
        written := written + 1;
        if c == NUL || i == limit - 1 {
          dst[at + i] := '\n';
          break;
        }
        dst[at + i] := Sanitized(c);
        i := i + 1;
      }
    }

    /** The messages that the slots hold, in the order in which Read visits them. */
    lemma SlotAt(pos: nat)
      requires Valid() && pos < ENTRIES
      ensures var h := |history| - ENTRIES + pos;
              Holds((eventSlot + pos) % TWO_TO_THE_32 % ENTRIES, if h < 0 then [] else history[h])
    {
      SlotOfVisit(|history|, pos);
    }

    /** What the first pos slots visited add up to. */
    ghost function Visited(pos: nat): seq<string>
      requires pos <= ENTRIES
      reads `history
    {
      var end := |history| - ENTRIES + pos;
      var start := Max(|history| - ENTRIES, 0);
      if end <= start then [] else history[start..end]
    }

    lemma VisitedNext(pos: nat)
      requires Valid() && pos < ENTRIES
      ensures var h := |history| - ENTRIES + pos;
              Visited(pos + 1) == if h < 0 then Visited(pos) else Visited(pos) + [history[h]]
      ensures Visited(ENTRIES) == LastFew(history) && Visited(0) == []
    {
    }

    /**
     * Read gives the last eight messages, oldest first, one per line, cut to the size of the buffer, always
     * NUL-terminated.
     */
    method Read(dst: array<char>, len: nat) returns (written: nat)
      requires Valid() && len <= dst.Length
      modifies dst
      ensures len == 0 ==> written == 0 && dst[..] == old(dst[..])
      ensures 0 < len ==>
        var text := Lines(LastFew(history));
        written == Min(|text|, len - 1) && dst[..written] == text[..written] && dst[written] == NUL
      ensures dst[len..] == old(dst[len..])
    {
      hide Lines, Line, LastFew, Visited, Valid, Holds;
      if len == 0 { return 0; }
      var slotNow := eventSlot;
      written := 0;
      ValidParts();
      VisitedNext(0);
      ghost var text := [];
      LinesOfNone();
      for pos := 0 to ENTRIES
        invariant Valid()
        invariant text == Lines(Visited(pos))
        invariant written == Min(|text|, len)
        invariant forall k :: 0 <= k < Min(|text|, len - 1) ==> dst[k] == text[k]
        invariant forall k :: len <= k < dst.Length ==> dst[k] == old(dst[k])
      {
        var slot := (slotNow + pos) % TWO_TO_THE_32 % ENTRIES;
        SlotAt(pos);
        VisitedNext(pos);
        ghost var h := |history| - ENTRIES + pos;
        ghost var t := if h < 0 then [] else history[h];
        FirstOf(slot, t);
        if events[slot, 0] != NUL {
          var at := written;
          written := CopyLine(slot, dst, at, len, t);
          LinesAppend(Visited(pos), t);
          text := text + Line(t);
        }
      }
      if written == len {
        written := written - 1;
      }
      dst[written] := NUL;
      assert dst[..written] == text[..written];
    }

    lemma ValidParts()
      requires Valid()
      ensures events.Length0 == ENTRIES && events.Length1 == MSG_LEN && eventSlot < TWO_TO_THE_32
      ensures forall h :: 0 <= h < |history| ==> history[h] != []
    {
    }

    lemma FirstOf(slot: nat, t: string)
      requires events.Length0 == ENTRIES && events.Length1 == MSG_LEN && slot < ENTRIES && Holds(slot, t)
      ensures events[slot, 0] == NUL <==> t == []
    {
    }
  }

  lemma LinesOfNone()
    ensures Lines([]) == []
  {
  }

  lemma LinesAppend(messages: seq<string>, t: string)
    ensures Lines(messages + [t]) == Lines(messages) + Line(t)
  {
    assert (messages + [t])[..|messages|] == messages;
  }

  /** Lines come one after the other, in the order of the messages. */
  lemma {:induction false} LinesConcat(a: seq<string>, b: seq<string>)
    ensures Lines(a + b) == Lines(a) + Lines(b)
    decreases |b|
  {
    hide Line, Lines;
    LinesOfNone();
    if b == [] {
      assert a + b == a && Lines(a) + [] == Lines(a);
    } else {
      var front, last := b[..|b| - 1], b[|b| - 1];
      LinesConcat(a, front);
      assert a + b == (a + front) + [last] && b == front + [last];
      LinesAppend(a + front, last);
      LinesAppend(front, last);
      assert Lines(a) + Lines(front) + Line(last) == Lines(a) + (Lines(front) + Line(last));
    }
  }

  lemma OneLine(t: string)
    ensures Lines([t]) == Line(t)
  {
    assert [t][..0] == [];
  }

  lemma NextCounter(n: nat)
    ensures (n % TWO_TO_THE_32 + 1) % TWO_TO_THE_32 == (n + 1) % TWO_TO_THE_32
  {
  }
}
