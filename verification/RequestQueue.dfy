/** The request list of a command queue: a linked list with a head and a tail. */
module RequestQueue {

  class Request {
    const tag: nat
    var next: Request?

    constructor (tag: nat)
      ensures this.tag == tag && next == null
    {
      this.tag, next := tag, null;
    }
  }

  class Queue {
    var head: Request?
    var tail: Request?
    /** The requests in the queue, oldest first. */
    ghost var contents: seq<Request>

    ghost predicate Valid()
      reads this, contents
    {
      && (head == if contents == [] then null else contents[0])
      && (tail == if contents == [] then null else contents[|contents| - 1])
      && (forall i :: 0 <= i < |contents| - 1 ==> contents[i].next == contents[i + 1])
      && (contents != [] ==> contents[|contents| - 1].next == null)
      && (forall i, j :: 0 <= i < j < |contents| ==> contents[i] != contents[j])
    }

    constructor ()
      ensures Valid() && contents == []
    {
      head, tail, contents := null, null, [];
    }

    /** Appends a request; `wakes` says that a waiting worker is signalled. */
    method Enqueue(rq: Request) returns (wakes: bool)
      requires Valid() && rq !in contents
      modifies this, rq, contents
      ensures Valid() && contents == old(contents) + [rq]
      ensures wakes <==> old(contents) == []
    {
      rq.next := null;
      wakes := false;
      if tail != null {
        tail.next := rq;
      } else {
        head := rq;
        wakes := true;
      }
      tail := rq;
      contents := contents + [rq];
    }

    /** Takes the oldest request, if any. */
    method Dequeue() returns (rq: Request?)
      requires Valid()
      modifies this
      ensures Valid()
      ensures old(contents) == [] ==> rq == null && contents == []
      ensures old(contents) != [] ==> rq == old(contents)[0] && contents == old(contents)[1..]
      ensures head == null <==> tail == null
    {
      rq := head;
      if rq == null {
        return;
      }
      if rq == tail {
        tail := null;
      }
      head := rq.next;
      contents := contents[1..];
    }
  }
}
