/**
  A process's file descriptors: numbers that name open files and are used again
  once closed. What the kernel answers is a parameter of each call.
 */
module Descriptors {
  type File = nat

  class DescriptorTable {
    var open: map<int, File>

    constructor ()
      ensures open == map[]
    {
      open := map[];
    }

    /** A negative answer is an error; any other is a number not in use. */
    method Dup(fd: int, answer: int)
      requires answer >= 0 ==> fd in open && answer !in open
      modifies this
      ensures open == if answer >= 0 then old(open)[answer := old(open)[fd]] else old(open)
    {
      if answer >= 0 {
        open := open[answer := open[fd]];
      }
    }

    /** A new socket. */
    method Open(file: File, answer: int)
      requires answer >= 0 ==> answer !in open
      modifies this
      ensures open == if answer >= 0 then old(open)[answer := file] else old(open)
    {
      if answer >= 0 {
        open := open[answer := file];
      }
    }

    /** Only open descriptors are closed, so none is closed twice. */
    method Close(fd: int)
      requires fd in open
      modifies this
      ensures open == old(open) - {fd}
    {
      open := open - {fd};
    }

    /** A loop that closes each of `fds`. */
    method CloseAll(fds: set<int>)
      requires fds <= open.Keys
      modifies this
      ensures open == old(open) - fds
    {
      var rest := fds;
      while |rest| > 0
        invariant rest <= fds && open == old(open) - (fds - rest)
        decreases |rest|
      {
        assert (forall fd :: fd !in rest) ==> rest == {};
        var fd :| fd in rest;
        Close(fd);
        rest := rest - {fd};
      }
    }
  }
}
