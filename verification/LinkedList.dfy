/** The doubly linked lists of devices and interfaces (parseconf.c, api.c). `items` is the sequence that
    a list stands for and `spine` its links; `repr` are the links that it ever had and `members` the
    items that it may have. */
module LinkedList {

  class Link<T> {
    const item: T
    var next: Link?<T>
    var prev: Link?<T>

    constructor (item: T)
      ensures this.item == item && next == null && prev == null
    {
      this.item := item;
      next, prev := null, null;
    }
  }

  class List<T> {
    var first: Link?<T>
    ghost var items: seq<T>
    ghost var spine: seq<Link<T>>
    ghost var repr: set<Link<T>>
    ghost var members: set<T>

    ghost predicate Valid()
      reads this, repr
    {
      && (forall i :: 0 <= i < |spine| ==> spine[i] in repr && spine[i].item in members)
      && |spine| == |items|
      && (forall i :: 0 <= i < |spine| ==> spine[i].item == items[i])
      && (forall i, j :: 0 <= i < j < |spine| ==> spine[i] != spine[j])
      && (forall i, j :: 0 <= i < j < |spine| && j == i + 1 ==>
            spine[i].next == spine[j] && spine[j].prev == spine[i])
      && (if spine == [] then first == null
          else first == spine[0] && spine[0].prev == null && spine[|spine| - 1].next == null)
    }

    /** The link at a place of the spine, or null beyond its end. */
    ghost function At(k: nat): Link?<T>
      reads this
    {
      if k < |spine| then spine[k] else null
    }

    lemma NextAt(k: nat)
      requires Valid() && k < |spine|
      ensures spine[k].next == At(k + 1)
    {
      if k + 1 < |spine| {
        assert spine[k].next == spine[k + 1];
      }
    }

    constructor ()
      ensures Valid() && items == [] && repr == {} && members == {}
    {
      first, items, spine := null, [], [];
      repr, members := {}, {};
    }

    /** Forgets the list. */
    method Drop()
      modifies this
      ensures Valid() && items == []
      ensures repr == old(repr) && members == old(members)
    {
      first, items, spine := null, [], [];
    }

    /** Walks to the end of the list. */
    method Last() returns (p: Link<T>)
      requires Valid() && first != null
      ensures |spine| > 0 && p == spine[|spine| - 1]
    {
      p := first;
      ghost var k := 0;
      while p.next != null
        invariant k < |spine| && p == spine[k]
        decreases |spine| - k
      {
        NextAt(k);
        p := p.next;
        k := k + 1;
      }
      NextAt(k);
    }

    /** Lets an item in. */
    ghost method Admit(item: T)
      requires Valid()
      modifies this`members
      ensures Valid() && members == old(members) + {item}
    {
      members := members + {item};
    }

    /** Links a new item at the end. */
    method Append(item: T)
      requires Valid() && item in members
      modifies this, repr
      ensures Valid() && items == old(items) + [item]
      ensures members == old(members) && forall l :: l in repr ==> l in old(repr) || fresh(l)
    {
      var l := new Link(item);
      if first != null {
        var p := Last();
        p.next := l;
        l.prev := p;
      } else {
        first := l;
      }
      items, spine := items + [item], spine + [l];
      repr := repr + {l};
    }

    /** The unlinking of api.c. The link keeps its own pointers, so a loop can go on from it. */
    method Unlink(l: Link<T>, ghost k: nat)
      requires Valid() && k < |spine| && spine[k] == l
      modifies this, repr
      ensures Valid() && spine == old(spine)[..k] + old(spine)[k + 1..]
      ensures repr == old(repr) && members == old(members)
      ensures items == old(items)[..k] + old(items)[k + 1..]
      ensures l.next == old(l.next) && l.prev == old(l.prev)
    {
      ghost var s := spine;
      NextAt(k);
      assert k > 0 ==> s[k - 1].next == s[k] && s[k].prev == s[k - 1];
      if l.prev != null {
        l.prev.next := l.next;
      } else {
        first := l.next;
      }
      if l.next != null {
        l.next.prev := l.prev;
      }
      items, spine := items[..k] + items[k + 1..], s[..k] + s[k + 1..];
      assert forall i :: 0 <= i < |spine| ==> spine[i] == s[if i < k then i else i + 1];
    }
  }
}
