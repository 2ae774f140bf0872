/** The interprocess mutex: a semaphore that starts at one. */
module Mutexes {
  datatype Locking = Entered | Shut | LockError

  class Mutex {
    var value: nat
    var isEmpty: bool

    constructor ()
      ensures value == 1 && !isEmpty
    {
      value, isEmpty := 1, false;
    }

    /**
      `sem_wait`: a caller that finds the semaphore at zero stays blocked; where the call fails,
      `MutexLockError` is thrown.
    */
    method Lock(willing: bool) returns (r: Locking)
      modifies `value
      ensures r == if !willing then LockError else if old(value) > 0 then Entered else Shut
      ensures value == if r == Entered then old(value) - 1 else old(value)
    {
      if !willing {
        return LockError;
      }
      if value == 0 {
        return Shut;
      }
      value := value - 1;
      return Entered;
    }

    /** `sem_trywait`: the same, except that a semaphore at zero is reported instead of waited for. */
    method TryLock(willing: bool) returns (r: Locking)
      modifies `value
      ensures r == if !willing then LockError else if old(value) > 0 then Entered else Shut
      ensures value == if r == Entered then old(value) - 1 else old(value)
    {
      if willing && value > 0 {
        value := value - 1;
        return Entered;
      }
      return if willing then Shut else LockError;
    }

    /** `sem_post`, which does not ask who holds the mutex; false where it fails and `MutexUnlockError` is thrown. */
    method Unlock(willing: bool) returns (ok: bool)
      modifies `value
      ensures ok == willing && value == if ok then old(value) + 1 else old(value)
    {
      if willing {
        value := value + 1;
      }
      return willing;
    }

    method Swap(other: Mutex)
      modifies this, other
      ensures value == old(other.value) && isEmpty == old(other.isEmpty)
      ensures other.value == old(value) && other.isEmpty == old(isEmpty)
    {
      value, other.value := other.value, value;
      isEmpty, other.isEmpty := other.isEmpty, isEmpty;
    }
  }
}
