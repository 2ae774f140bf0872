/** Descriptor ownership: moves carry an open file from one owner to another, and only `close` gives it back. */
module Descriptors {
  /** The process's side of the kernel: open files and the interest set of one epoll instance. */
  class Kernel {
    var open: set<int>
    var interest: map<int, int>

    constructor (open: set<int>, interest: map<int, int>)
      ensures this.open == open && this.interest == interest
    {
      this.open, this.interest := open, interest;
    }

    /** Closing the only descriptor of a file also takes it out of every interest set. */
    method Close(fd: int)
      modifies this
      ensures open == old(open) - {fd} && interest == old(interest) - {fd}
    {
      open := open - {fd};
      interest := interest - {fd};
    }

    /** `EPOLL_CTL_ADD`; it can fail although the file is open and not yet watched. */
    method EpollAdd(fd: int, events: int, willing: bool) returns (ok: bool)
      modifies `interest
      ensures ok == (willing && fd in open && fd !in old(interest))
      ensures interest == if ok then old(interest)[fd := events] else old(interest)
    {
      ok := willing && fd in open && fd !in interest;
      if ok {
        interest := interest[fd := events];
      }
    }

    /** `EPOLL_CTL_MOD`; it can fail although the file is watched. */
    method EpollMod(fd: int, events: int, willing: bool) returns (ok: bool)
      modifies `interest
      ensures ok == (willing && fd in old(interest))
      ensures interest == if ok then old(interest)[fd := events] else old(interest)
    {
      ok := willing && fd in interest;
      if ok {
        interest := interest[fd := events];
      }
    }
  }

  class Descriptor {
    var fd: int

    predicate IsValid()
      reads this
    {
      fd > -1
    }

    constructor (fd: int)
      ensures this.fd == fd
    {
      this.fd := fd;
    }

    method Swap(other: Descriptor)
      modifies this, other
      ensures fd == old(other.fd) && other.fd == old(fd)
    {
      fd, other.fd := other.fd, fd;
    }

    /** Move assignment: what this owned is closed, and the other is left owning nothing. */
    method MoveFrom(other: Descriptor, kernel: Kernel)
      modifies this, other, kernel
      ensures
        if this == other then
          fd == old(fd) && kernel.open == old(kernel.open) && kernel.interest == old(kernel.interest)
        else
          && fd == old(other.fd) && other.fd == -1
          && kernel.open == (if old(fd) > -1 then old(kernel.open) - {old(fd)} else old(kernel.open))
          && kernel.interest == (if old(fd) > -1 then old(kernel.interest) - {old(fd)} else old(kernel.interest))
    {
      if this != other {
        var dropped := new Descriptor(-1);
        dropped.Swap(this);
        dropped.Close(kernel);
        Swap(other);
      }
    }

    method Extract() returns (was: int)
      modifies this
      ensures was == old(fd) && fd == -1
    {
      was := fd;
      fd := -1;
    }

    /** `close`, which is also what the destructor does. */
    method Close(kernel: Kernel)
      modifies this, kernel
      ensures fd == -1 || (old(fd) <= -1 && fd == old(fd))
      ensures kernel.open == (if old(fd) > -1 then old(kernel.open) - {old(fd)} else old(kernel.open))
      ensures kernel.interest == (if old(fd) > -1 then old(kernel.interest) - {old(fd)} else old(kernel.interest))
    {
      if IsValid() {
        kernel.Close(fd);
        fd := -1;
      }
    }
  }
}
