/** The request structure that the pool and its groups share (libeio/eio.h). */
module Requests {

  /** `struct eio_req`, without the operands of the system calls. */
  class Request {
    /** Link of the queue that the request is in. */
    var next: Request?
    /** Priority index, once submitted. */
    var pri: int
    var cancelled: bool

    // group requests: number of members and the first of them
    var size: int
    var grp_first: Request?

    // members: the group and the neighbours in its list
    var grp: Request?
    var grp_prev: Request?
    var grp_next: Request?

    constructor (pri: int)
      ensures this.pri == pri && !cancelled && size == 0
      ensures next == null && grp_first == null && grp == null && grp_prev == null && grp_next == null
    {
      this.pri := pri;
      cancelled := false;
      size := 0;
      next, grp_first, grp, grp_prev, grp_next := null, null, null, null, null;
    }
  }
}
