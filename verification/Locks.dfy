/** The readers / writer / deleter lock of lock.c. */
module Locks {

  datatype Kind = Reader | Writer | Deleter

  /** The fields of `Lock_Struct`. */
  datatype Vars = Vars(readers: int, writing: bool, deleting: bool)

  /** Whom a release wakes: `pthread_cond_signal` one, `broadcast` all. */
  datatype Wake = Nobody | One | All

  /** The condition of the wait loop. */
  predicate Blocked(v: Vars, k: Kind) {
    v.writing || v.deleting || (k != Reader && v.readers > 0)
  }

  function Acquired(v: Vars, k: Kind): Vars {
    match k
    case Reader => v.(readers := v.readers + 1)
    case Writer => v.(writing := true)
    case Deleter => v.(deleting := true)
  }

  function Released(v: Vars, k: Kind): Vars {
    match k
    case Reader => v.(readers := v.readers - 1)
    case Writer => v.(writing := false)
    case Deleter => v.(deleting := false)
  }

  function WakeOf(v: Vars, k: Kind): Wake {
    match k
    case Reader => if v.readers - 1 == 0 then One else Nobody
    case Writer => One
    case Deleter => All
  }

  /** The lock object; each method is one critical section under the mutex. */
  class FileLock {
    var readers: int
    var isWriting: bool
    var isDeleting: bool

    function View(): Vars
      reads this
    {
      Vars(readers, isWriting, isDeleting)
    }

    /** `init_lock`. */
    constructor ()
      ensures View() == Vars(0, false, false)
    {
      readers, isWriting, isDeleting := 0, false, false;
    }

    /** One round of the wait loop of `acquire_read_lock`; on false the caller waits. */
    method TryRead() returns (entered: bool)
      modifies this
      ensures entered == !Blocked(old(View()), Reader)
      ensures View() == if entered then Acquired(old(View()), Reader) else old(View())
    {
      if isWriting || isDeleting {
        return false;
      }
      readers := readers + 1;
      return true;
    }

    /** The same for `acquire_write_lock`. */
    method TryWrite() returns (entered: bool)
      modifies this
      ensures entered == !Blocked(old(View()), Writer)
      ensures View() == if entered then Acquired(old(View()), Writer) else old(View())
    {
      if isWriting || isDeleting || readers > 0 {
        return false;
      }
      isWriting := true;
      return true;
    }

    /** The same for `acquire_delete_lock`. */
    method TryDelete() returns (entered: bool)
      modifies this
      ensures entered == !Blocked(old(View()), Deleter)
      ensures View() == if entered then Acquired(old(View()), Deleter) else old(View())
    {
      if isWriting || isDeleting || readers > 0 {
        return false;
      }
      isDeleting := true;
      return true;
    }

    /** `release_read_lock`: the last reader signals. */
    method ReleaseRead() returns (wake: Wake)
      modifies this
      ensures View() == Released(old(View()), Reader) && wake == WakeOf(old(View()), Reader)
    {
      readers := readers - 1;
      wake := if readers == 0 then One else Nobody;
    }

    /** `release_write_lock`: signal one. */
    method ReleaseWrite() returns (wake: Wake)
      modifies this
      ensures View() == Released(old(View()), Writer) && wake == WakeOf(old(View()), Writer)
    {
      isWriting := false;
      wake := One;
    }

    /** `release_delete_lock`: broadcast. */
    method ReleaseDelete() returns (wake: Wake)
      modifies this
      ensures View() == Released(old(View()), Deleter) && wake == WakeOf(old(View()), Deleter)
    {
      isDeleting := false;
      wake := All;
    }
  }
}
