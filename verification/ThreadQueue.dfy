/** The linked queues of the thread library. All of them recycle one spare element, and a queue that has
    become empty keeps its old `last`, which by then may be an element of another queue, or freed. */
module ThreadQueue {
  import opened Options
  import opened Scheduling

  class Element {
    var thread: Option<Tid>
    var next: Element?

    constructor ()
      ensures thread == None && next == null
    {
      thread, next := None, null;
    }
  }

  /** The use that the scheduler has for a queue: a level of one of its two run queues, a list, the threads
      that wait for a mutex or inside a monitor, or a list that is being rebuilt. */
  datatype Place = Level(side: bool, priority: nat) | Sleepers | Joiners | Zombies | Dead
                 | OfMutex(l: nat) | OfMonitor(l: nat) | Temporary

  class Queue {
    var first: Element?
    var last: Element?

    /** The elements from `first` on, and the threads in them, first come first. */
    ghost var elements: seq<Element>
    ghost var contents: seq<Tid>
    ghost var place: Place

    constructor (ghost place: Place)
      ensures first == null && last == null && elements == [] && contents == [] && this.place == place
    {
      first, last, elements, contents := null, null, [], [];
      this.place := place;
    }

    /** Nothing is said of the `last` of an empty queue. */
    ghost predicate Linked()
      reads this, elements
    {
      && (first == if elements == [] then null else elements[0])
      && (elements != [] ==> last == elements[|elements| - 1])
      && (forall i, j | 0 <= i < j < |elements| :: elements[i] != elements[j])
      && |contents| == |elements|
      && (forall i: nat | i < |elements| :: LinkedAt(i))
    }

    ghost predicate LinkedAt(i: nat)
      requires i < |elements| && |contents| == |elements|
      reads this, elements
    {
      && elements[i].thread == Some(contents[i])
      && elements[i].next == if i + 1 < |elements| then elements[i + 1] else null
    }
  }

  /** empty_element_ptr, and what malloc has given out and free has not taken back. */
  class Library {
    var spare: Element?
    ghost var queues: set<Queue>
    ghost var live: set<Element>

    ghost predicate Valid()
      reads this, queues, live
    {
      && (spare != null ==> spare in live)
      && (forall q | q in queues :: Keeps(q))
      && (forall q, r | q in queues && r in queues && q != r :: Apart(q, r))
    }

    ghost predicate Keeps(q: Queue)
      reads this, q, live
    {
      (forall i | 0 <= i < |q.elements| :: q.elements[i] in live && q.elements[i] != spare) && q.Linked()
    }

    ghost predicate Apart(q: Queue, r: Queue)
      reads q, r
    {
      forall i, j | 0 <= i < |q.elements| && 0 <= j < |r.elements| :: q.elements[i] != r.elements[j]
    }

    /** A queue none of whose elements a step has written. */
    twostate lemma Untouched(q: Queue)
      requires old(Keeps(q)) && q.elements == old(q.elements) && q.contents == old(q.contents)
      requires q.first == old(q.first) && q.last == old(q.last)
      requires forall i | 0 <= i < |q.elements| ::
                 && q.elements[i] in live && q.elements[i] != spare
                 && q.elements[i].next == old(q.elements[i].next) && q.elements[i].thread == old(q.elements[i].thread)
      ensures Keeps(q)
    {
      forall i: nat | i < |q.elements| ensures q.LinkedAt(i) {
        assert old(q.LinkedAt(i));
      }
    }

    /** A step on q that has written only elements of q, or of nobody, leaves the other queues alone. */
    twostate lemma OthersStay(q: Queue, new written: set<Element>)
      requires old(Valid()) && q in queues && queues == old(queues)
      requires forall r | r in queues && r != q ::
                 r.first == old(r.first) && r.last == old(r.last) && r.elements == old(r.elements) && r.contents == old(r.contents)
      requires forall e | e in old(live) && e !in written :: e in live && e.next == old(e.next) && e.thread == old(e.thread)
      requires forall r, i | r in queues && r != q && 0 <= i < |r.elements| :: r.elements[i] !in written
      requires spare == null || spare == old(spare) || spare in written
      requires forall r | r in queues && r != q :: Apart(q, r) && Apart(r, q)
      requires Keeps(q) && (spare != null ==> spare in live)
      ensures Valid()
    {
      forall r | r in queues && r != q ensures Keeps(r) {
        assert old(Keeps(r));
        Untouched(r);
      }
      forall r, t | r in queues && t in queues && r != t ensures Apart(r, t) {
        assert old(Apart(r, t));
      }
    }

    constructor ()
      ensures Valid() && queues == {} && live == {}
    {
      spare, queues, live := null, {}, {};
    }

    /** create_queue. It forgets the spare element, which nobody will use again. */
    method CreateQueue(ghost place: Place) returns (q: Queue)
      requires Valid()
      modifies this`spare, this`queues
      ensures Valid() && fresh(q) && queues == old(queues) + {q}
      ensures q.contents == [] && q.place == place
    {
      q := new Queue(place);
      spare := null;
      queues := queues + {q};
    }

    /** From now on the queue is used for something else. */
    ghost method Use(q: Queue, place: Place)
      requires Valid() && q in queues
      modifies q`place
      ensures Valid() && q.place == place
    {
      q.place := place;
      forall r | r in queues ensures Keeps(r) {
        assert old(Keeps(r));
        Untouched(r);
      }
      forall r, t | r in queues && t in queues && r != t ensures Apart(r, t) {
        assert old(Apart(r, t));
      }
    }

    /** delete_queue: its elements and the queue itself are freed. */
    method DeleteQueue(q: Queue)
      requires Valid() && q in queues
      modifies this`queues, this`live
      ensures Valid() && queues == old(queues) - {q} && live <= old(live)
      ensures old(live) - live == set e | e in q.elements
    {
      var pointer := q.first;
      assert Keeps(q);
      ghost var i := 0;
      while pointer != null
        invariant 0 <= i <= |q.elements|
        invariant pointer == if i < |q.elements| then q.elements[i] else null
        invariant queues == old(queues) && live == old(live) - set e | e in q.elements[..i]
        decreases |q.elements| - i
      {
        assert q.LinkedAt(i);
        var next := pointer.next;
        live := live - {pointer};
        pointer, i := next, i + 1;
      }
      assert q.elements[..i] == q.elements;
      queues := queues - {q};
      forall r | r in queues ensures Keeps(r) {
        assert old(Keeps(r) && Apart(r, q));
        Untouched(r);
      }
    }

    /** malloc, or the spare element. */
    method NewElement(thread: Tid) returns (e: Element)
      requires Valid()
      modifies this`spare, this`live, live
      ensures Valid() && spare == null && e in live && old(live) <= live && fresh(live - old(live))
      ensures e.thread == Some(thread) && e.next == null
      ensures forall q, i | q in queues && 0 <= i < |q.elements| :: q.elements[i] != e
      ensures forall o: Element | o in old(live) && o != old(spare) :: o.next == old(o.next) && o.thread == old(o.thread)
    {
      if spare == null {
        e := new Element();
        live := live + {e};
      } else {
        e := spare;
        spare := null;
      }
      e.thread, e.next := Some(thread), null;
      forall q | q in queues ensures Keeps(q) {
        assert old(Keeps(q));
        Untouched(q);
      }
    }

    /** The element goes to the end of the queue. */
    method Append(q: Queue, e: Element)
      requires Valid() && q in queues && e in live && e != spare && e.thread.Some? && e.next == null
      requires forall r, i | r in queues && 0 <= i < |r.elements| :: r.elements[i] != e
      modifies live, q`first, q`last, q`elements, q`contents
      ensures Valid() && q.contents == old(q.contents) + [old(e.thread.value)]
    {
      assert Keeps(q);
      ghost var written := {e};
      q.contents := q.contents + [e.thread.value];
      if q.first == null {
        q.elements := q.elements + [e];
        q.first := e;
        q.last := e;
      } else {
        written := written + {q.last};
        q.elements := q.elements + [e];
        q.last.next := e;
        q.last := e;
      }
      forall i: nat | i < |q.elements| ensures q.LinkedAt(i) {
        assert i + 1 < |q.elements| ==> old(q.LinkedAt(i));
      }
      forall r | r in queues && r != q ensures Apart(q, r) && Apart(r, q) {
        assert old(Apart(q, r) && Apart(r, q));
      }
      OthersStay(q, written);
    }

    /** queue_insert. */
    method Insert(q: Queue, thread: Tid)
      requires Valid() && q in queues
      modifies this`spare, this`live, live, q`first, q`last, q`elements, q`contents
      ensures Valid() && fresh(live - old(live))
      ensures q.contents == old(q.contents) + [thread]
    {
      hide Queue.Linked;
      var e := NewElement(thread);
      Append(q, e);
    }

    /** The first element comes off the queue. */
    method Detach(q: Queue) returns (temp: Element)
      requires Valid() && q in queues && q.contents != []
      modifies q`first, q`elements, q`contents
      ensures temp in live && temp != spare && temp.thread == Some(old(q.contents)[0])
      ensures Valid() && q.contents == old(q.contents)[1..]
      ensures forall r, i | r in queues && 0 <= i < |r.elements| :: r.elements[i] != temp
    {
      assert Keeps(q) && q.LinkedAt(0);
      temp := q.first;
      q.first := temp.next;
      q.elements, q.contents := q.elements[1..], q.contents[1..];
      forall i: nat | i < |q.elements| ensures q.LinkedAt(i) {
        assert old(q.LinkedAt(i + 1));
      }
      forall r | r in queues && r != q ensures Apart(q, r) && Apart(r, q) {
        assert old(Apart(q, r) && Apart(r, q));
      }
      OthersStay(q, {temp});
    }

    /** queue_remove: the element becomes the spare one, or is freed if there is one already. */
    method Remove(q: Queue) returns (thread: Tid)
      requires Valid() && q in queues && q.contents != []
      modifies this`spare, this`live, live, q`first, q`elements, q`contents
      ensures Valid() && live <= old(live)
      ensures old(q.contents) == [thread] + q.contents
    {
      var temp := Detach(q);
      label detached:
      thread := temp.thread.value;
      temp.thread, temp.next := None, null;
      if spare != null {
        live := live - {temp};
      } else {
        spare := temp;
      }
      forall r | r in queues ensures Keeps(r) {
        assert old@detached(Keeps(r));
        Untouched@detached(r);
      }
      forall r, t | r in queues && t in queues && r != t ensures Apart(r, t) {
        assert old@detached(Apart(r, t));
      }
    }

    /** queue_is_empty. */
    method IsEmpty(q: Queue) returns (empty: bool)
      requires Valid() && q in queues
      ensures empty == (q.contents == [])
    {
      assert Keeps(q);
      empty := q.first == null;
    }

    /** queue_first, which the source calls only on queues that are not empty. */
    method First(q: Queue) returns (thread: Tid)
      requires Valid() && q in queues && q.contents != []
      ensures thread == q.contents[0]
    {
      assert Keeps(q) && q.LinkedAt(0);
      thread := q.first.thread.value;
    }

    /** The walk along `next` by which sthread_user_join looks for a thread. */
    method Find(q: Queue, t: Tid) returns (found: bool)
      requires Valid() && q in queues
      ensures found == (t in q.contents)
    {
      assert Keeps(q);
      found := false;
      var qe := q.first;
      ghost var i := 0;
      while qe != null && !found
        invariant 0 <= i <= |q.elements|
        invariant qe == if i < |q.elements| then q.elements[i] else null
        invariant found == (t in q.contents[..i])
        decreases |q.elements| - i
      {
        assert q.LinkedAt(i) && q.contents[..i + 1] == q.contents[..i] + [q.contents[i]];
        if qe.thread.value == t {
          found := true;
        }
        qe, i := qe.next, i + 1;
      }
      assert qe == null ==> q.contents[..i] == q.contents;
    }
  }
}
