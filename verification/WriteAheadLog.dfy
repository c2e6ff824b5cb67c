/** The durable effects of an erasure run, in order (harness_mem/data_lifecycle.py and
    harness_mem/processed_source_cleanup.py). */
module WriteAheadLog {
  datatype Status = InProgress | Skipped | Succeeded | PartialFailure | Unsupported

  /** Removed stands for any change to a record or a native source. */
  datatype Event = Saved(status: Status) | Removed | Verified(clean: bool)

  ghost predicate Disciplined(log: seq<Event>) {
    forall i :: 0 <= i < |log| ==> Covered(log, i)
  }

  /** Nothing is removed without an earlier in-progress receipt, and success is recorded only
      straight after a verification that found nothing. */
  ghost predicate Covered(log: seq<Event>, i: int)
    requires 0 <= i < |log|
  {
    && (log[i] == Removed ==> Saved(InProgress) in log[..i])
    && (log[i] == Saved(Succeeded) ==> i > 0 && log[i - 1] == Verified(true))
  }

  /** A crash leaves a prefix of the log, which is disciplined as well. */
  lemma PrefixDisciplined(log: seq<Event>, n: nat)
    requires Disciplined(log) && n <= |log|
    ensures Disciplined(log[..n])
  {
    forall i | 0 <= i < n ensures Covered(log[..n], i) {
      assert Covered(log, i);
      assert log[..n][..i] == log[..i];
    }
  }

  lemma Append(log: seq<Event>, event: Event)
    requires Disciplined(log)
    requires event == Removed ==> Saved(InProgress) in log
    requires event == Saved(Succeeded) ==> log != [] && log[|log| - 1] == Verified(true)
    ensures Disciplined(log + [event])
  {
    var longer := log + [event];
    forall i | 0 <= i < |longer| ensures Covered(longer, i) {
      if i < |log| {
        assert Covered(log, i);
        assert longer[..i] == log[..i];
      } else {
        assert longer[..i] == log;
      }
    }
  }
}
