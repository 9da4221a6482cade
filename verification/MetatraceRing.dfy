/** The ring buffer object, with an append run from beginning to end by one thread. */
module MetatraceRing {
  import opened Common
  import opened Metatrace

  /** The steps of one append, taken without interruption. */
  function AppendAlone(s: Ring, t: ThreadId): Ring
    requires t !in s.appends
  {
    var s1 := Apply(s, FetchAdd(t));
    var s2 := Apply(s1, LoadReadIndex(t));
    if t !in s2.appends then s2
    else
      var s3 := Apply(s2, QueueReadTask(t));
      if t !in s3.appends then s3 else Apply(s3, FetchSub(t))
  }

  class RingBuffer {
    var wrIndex: nat
    var rdIndex: nat
    var hasOverruns: bool
    var readTaskQueued: bool
    var readTasks: nat

    /** The shared variables, with no append in flight. */
    function View(): Ring
      reads this
    {
      RESET.(wr := wrIndex, rd := rdIndex, hasOverruns := hasOverruns, readTaskQueued := readTaskQueued,
          readTasks := readTasks)
    }

    constructor ()
      ensures View() == RESET
    {
      wrIndex, rdIndex, hasOverruns, readTaskQueued, readTasks := 0, 0, false, false, 0;
    }

    method Reset()
      modifies this
      ensures View() == RESET.(readTasks := old(readTasks))
    {
      wrIndex := 0;
      rdIndex := 0;
      hasOverruns := false;
      readTaskQueued := false;
    }

    /** The slot of the new record, or None for the bankruptcy record. */
    method AppendNewRecord() returns (slot: Option<nat>)
      requires rdIndex <= wrIndex < TWO_TO_THE_64
      modifies this
      ensures var s := AppendAlone(old(View()), 0);
              && View() == RESET.(wr := s.wr, rd := s.rd, hasOverruns := s.hasOverruns,
                 readTaskQueued := s.readTaskQueued, readTasks := s.readTasks)
              && s.appends == map[]
              && slot == (if s.grants == 1 then Some(old(wrIndex) % CAPACITY) else None)
      ensures slot.Some? <==> old(wrIndex) - rdIndex < CAPACITY
      ensures slot.None? ==> wrIndex == old(wrIndex) && hasOverruns
    {
      ghost var start := View();
      assert (wrIndex - rdIndex) % TWO_TO_THE_64 == wrIndex - rdIndex;
      assert start.appends[0 := Reserved(wrIndex)] - {0} == map[];
      assert start.appends[0 := Reserved(wrIndex)][0 := Slow(wrIndex, wrIndex - rdIndex)] - {0} == map[];
      var index := wrIndex;
      wrIndex := wrIndex + 1;
      var size := index - rdIndex;
      if size < CAPACITY / 2 {
        return Some(index % CAPACITY);
      }
      if !readTaskQueued {
        readTaskQueued := true;
        readTasks := readTasks + 1;
      }
      if size < CAPACITY {
        return Some(index % CAPACITY);
      }
      hasOverruns := true;
      wrIndex := wrIndex - 1;
      assert start.appends[0 := Reserved(index)][0 := Slow(index, size)][0 := RollingBack(index)] - {0} == map[];
      return None;
    }
  }
}
