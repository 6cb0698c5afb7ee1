/**
  The elastic sliding text window of textqueue.go.

  textqueue.go keeps its lines in a doubly-linked list whose front holds the
  newest line and whose back holds the oldest. Here the list is the sequence
  `data` read from the back to the front: `data[0]` is the back (the oldest
  line) and `data[|data| - 1]` the front (the newest line).
 */
module Queue {

  datatype TextQueue = TextQueue(data: seq<string>)

  /** An empty queue. */
  function NewTextQueue(): (q: TextQueue)
    ensures Len(q) == 0
    ensures StringSlice(q) == []
  {
    TextQueue([])
  }

  /** The number of lines currently held. */
  function Len(q: TextQueue): (n: nat)
    ensures n == 0 <==> q.data == []
  {
    |q.data|
  }

  /**
    The held lines as a snapshot, walking from the back of the list to its
    front, that is from the oldest line to the newest.
   */
  function StringSlice(q: TextQueue): (a: seq<string>)
    ensures |a| == Len(q)
  {
    q.data
  }

  /** Adds a line at the front: it becomes the newest line of the snapshot. */
  function AddFront(q: TextQueue, s: string): (r: TextQueue)
    ensures Len(r) == Len(q) + 1
    ensures StringSlice(r) == StringSlice(q) + [s]
  {
    TextQueue(q.data + [s])
  }

  /** Discards the rearmost (oldest) line, if there is one. */
  function RemoveBack(q: TextQueue): (r: TextQueue)
    ensures Len(q) == 0 ==> r == q
    ensures Len(q) > 0 ==> Len(r) == Len(q) - 1 && StringSlice(r) == StringSlice(q)[1..]
  {
    if |q.data| == 0 then q else TextQueue(q.data[1..])
  }

  /** Removes every line. */
  function Purge(q: TextQueue): (r: TextQueue)
    ensures Len(r) == 0
    ensures StringSlice(r) == []
  {
    TextQueue([])
  }

  /** Two pushes onto an empty queue read back oldest first. */
  lemma AddFrontOrder(a: string, b: string)
    ensures StringSlice(AddFront(AddFront(NewTextQueue(), a), b)) == [a, b]
  {
  }

  /**
    The queue after pushing each of `ls` in turn, dropping the oldest line
    whenever the queue grows wider than `n`: the way the scan loop uses it
    while no match and no purge intervenes.
   */
  function Slide(q: TextQueue, ls: seq<string>, n: nat): TextQueue
    decreases |ls|
  {
    if |ls| == 0 then q
    else
      var pushed := AddFront(Slide(q, ls[..|ls| - 1], n), ls[|ls| - 1]);
      if Len(pushed) > n then RemoveBack(pushed) else pushed
  }

  /**
    Sliding keeps exactly the newest `n` lines pushed (all of them when fewer
    were pushed), oldest first: the queue is first in, first out.
   */
  lemma {:induction false} SlideKeepsNewest(ls: seq<string>, n: nat)
    ensures var k := if |ls| < n then |ls| else n;
      StringSlice(Slide(NewTextQueue(), ls, n)) == ls[|ls| - k..]
    decreases |ls|
  {
    if |ls| > 0 {
      var init := ls[..|ls| - 1];
      SlideKeepsNewest(init, n);
      var k := if |init| < n then |init| else n;
      assert init[|init| - k..] + [ls[|ls| - 1]] == ls[|ls| - 1 - k..];
    }
  }
}
