/**
 The command queue of a thread, src/threads.c: a linked list with a pointer to its
 first and to its last element. Both operations run under the mutex of the queue.
 */
module CommandQueues {
  import opened Protocol

  class Node {
    const cmd: Command
    var next: Node?

    constructor (cmd: Command)
      ensures this.cmd == cmd && next == null
    {
      this.cmd, next := cmd, null;
    }
  }

  class CommandQueue {
    var head: Node?
    var tail: Node?
    var done: bool
    ghost var nodes: seq<Node>

    /** The nodes from head to tail are linked in this order, and no other. */
    ghost predicate Valid()
      reads this, nodes
    {
      && (head == null <==> nodes == []) && (tail == null <==> nodes == [])
      && (nodes != [] ==> head == nodes[0] && tail == nodes[|nodes| - 1] && nodes[|nodes| - 1].next == null)
      && (forall i, j :: 0 <= i < j < |nodes| ==> nodes[i] != nodes[j])
      && forall i, j :: 0 <= i && i + 1 == j < |nodes| ==> nodes[i].next == nodes[j]
    }

    /** The commands that wait, the next one first. */
    ghost function Commands(): (c: seq<Command>)
      reads this
      ensures |c| == |nodes|
    {
      seq(|nodes|, i requires 0 <= i < |nodes| reads this => nodes[i].cmd)
    }

    constructor ()
      ensures Valid() && Commands() == [] && done
    {
      head, tail, done, nodes := null, null, true, [];
    }

    /** send_cmd */
    method SendCmd(cmd: Command)
      requires Valid()
      modifies this, tail
      ensures Valid() && Commands() == old(Commands()) + [cmd] && !done
      ensures forall n :: n in nodes && n !in old(nodes) ==> fresh(n)
    {
      var q := new Node(cmd);
      if tail == null {
        head, tail := q, q;
      } else {
        tail.next := q;
        tail := q;
      }
      nodes := nodes + [q];
      done := false;
    }

    /** The worker takes the first command; it waits until there is one. */
    method TakeCmd() returns (cmd: Command)
      requires Valid() && Commands() != []
      modifies this
      ensures Valid() && old(Commands()) == [cmd] + Commands() && done == old(done)
      ensures forall n :: n in nodes ==> n in old(nodes)
    {
      ghost var was := nodes;
      var q := head;
      assert q == was[0] && q.next == if |was| > 1 then was[1] else null;
      cmd := q.cmd;
      head := q.next;
      if head == null {
        tail := null;
      }
      nodes := nodes[1..];
      assert forall i :: 0 <= i < |nodes| ==> nodes[i] == was[i + 1];
    }

    /** The worker reports a command as done. */
    method SignalDone()
      requires Valid()
      modifies this`done
      ensures Valid() && Commands() == old(Commands()) && done
    {
      done := true;
    }
  }
}
