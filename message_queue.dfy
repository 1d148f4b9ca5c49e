/**
 * `MessageQueue`: the queue of strings the demo threads hand each other. Only the
 * sequential behaviour is modelled; the mutex and the condition variable are not.
 */
module Messages {

  class MessageQueue {
    /** The queued strings, oldest first. */
    var items: seq<string>

    constructor ()
      ensures items == []
    {
      items := [];
    }

    /** `push`: the string goes to the back. */
    method Push(data: string)
      modifies this
      ensures items == old(items) + [data]
    {
      items := items + [data];
    }

    /**
     * `pop`: the oldest string, which leaves the queue. The source waits until the
     * queue is not empty; here the caller must know it is not.
     */
    method Pop() returns (data: string)
      requires items != []
      modifies this
      ensures data == old(items)[0] && items == old(items)[1..]
      ensures |items| == |old(items)| - 1
    {
      data := items[0];
      items := items[1..];
    }

    /** `empty`: whether no string is queued; the queue is not changed. */
    method Empty() returns (e: bool)
      ensures e <==> |items| == 0
    {
      e := items == [];
    }
  }

  /**
   * First in, first out: strings pushed onto a new queue one after another come
   * back from as many pops in the order they were pushed, and the queue is then
   * empty again.
   */
  method PushThenPop(xs: seq<string>) returns (out: seq<string>, emptyAfter: bool)
    ensures out == xs
    ensures emptyAfter
  {
    var q := new MessageQueue();
    var i := 0;
    while i < |xs|
      invariant 0 <= i <= |xs| && q.items == xs[..i]
      decreases |xs| - i
    {
      assert xs[..i + 1] == xs[..i] + [xs[i]];
      q.Push(xs[i]);
      i := i + 1;
    }
    out := [];
    while |out| < |xs|
      invariant |out| <= |xs|
      invariant out == xs[..|out|] && q.items == xs[|out|..]
      decreases |xs| - |out|
    {
      var d := q.Pop();
      out := out + [d];
    }
    emptyAfter := q.Empty();
  }
}
