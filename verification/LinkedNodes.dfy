/**
 * Free-list nodes as they lie in memory: at each node's address a next pointer and a size.
 * `Linked` says that following next pointers from a head gives exactly a given list; the lemmas
 * say which writes turn one list into another.
 */
module LinkedNodes {
  import opened FreeList

  datatype NodeRec = NodeRec(next: int, size: int)

  type Memory = map<int, NodeRec>

  /** The address of block `i`, or null past the end. */
  function AddrAt(ns: seq<Node>, i: nat): int { if i < |ns| then ns[i].addr else 0 }

  ghost predicate At(mem: Memory, n: Node, next: int)
  {
    n.addr in mem && mem[n.addr] == NodeRec(next, n.size)
  }

  /** The blocks `ns`, each pointing to the one after it and the last to `next`. */
  ghost predicate Segment(mem: Memory, ns: seq<Node>, next: int)
  {
    forall i {:trigger NextAt(ns, i, next)} :: 0 <= i < |ns| ==> At(mem, ns[i], NextAt(ns, i, next))
  }

  /** What block `i` of a segment points to. */
  function NextAt(ns: seq<Node>, i: nat, next: int): int { if i + 1 < |ns| then ns[i + 1].addr else next }

  ghost predicate Linked(mem: Memory, head: int, ns: seq<Node>)
  {
    head == AddrAt(ns, 0) && Segment(mem, ns, 0)
  }

  lemma SegmentSplit(mem: Memory, ns: seq<Node>, next: int, i: nat)
    requires Segment(mem, ns, next) && i <= |ns|
    ensures Segment(mem, ns[..i], if i < |ns| then ns[i].addr else next)
    ensures Segment(mem, ns[i..], next)
  {
    var a, b := ns[..i], ns[i..];
    forall x | 0 <= x < |a| ensures At(mem, a[x], NextAt(a, x, if i < |ns| then ns[i].addr else next)) {
      assert At(mem, ns[x], NextAt(ns, x, next));
    }
    forall x | 0 <= x < |b| ensures At(mem, b[x], NextAt(b, x, next)) {
      assert At(mem, ns[i + x], NextAt(ns, i + x, next));
    }
  }

  lemma SegmentJoin(mem: Memory, a: seq<Node>, b: seq<Node>, next: int)
    requires Segment(mem, b, next)
    requires Segment(mem, a, if |b| > 0 then b[0].addr else next)
    ensures Segment(mem, a + b, next)
  {
    var c := a + b;
    forall x | 0 <= x < |c| ensures At(mem, c[x], NextAt(c, x, next)) {
      if x < |a| {
        assert At(mem, a[x], NextAt(a, x, if |b| > 0 then b[0].addr else next));
      } else {
        assert At(mem, b[x - |a|], NextAt(b, x - |a|, next));
      }
    }
  }

  /** Writes elsewhere do not matter. */
  lemma SegmentFrame(mem: Memory, mem': Memory, ns: seq<Node>, next: int)
    requires Segment(mem, ns, next)
    requires forall i :: 0 <= i < |ns| ==> ns[i].addr in mem && ns[i].addr in mem' && mem'[ns[i].addr] == mem[ns[i].addr]
    ensures Segment(mem', ns, next)
  {
    forall i | 0 <= i < |ns| ensures At(mem', ns[i], NextAt(ns, i, next)) {
      assert At(mem, ns[i], NextAt(ns, i, next));
    }
  }

  /** Rewriting the last block's next pointer. */
  lemma SegmentRelink(mem: Memory, mem': Memory, ns: seq<Node>, next: int, next': int)
    requires Segment(mem, ns, next) && |ns| > 0
    requires forall i :: 0 <= i < |ns| - 1 ==> ns[i].addr in mem && ns[i].addr in mem' && mem'[ns[i].addr] == mem[ns[i].addr]
    requires At(mem', ns[|ns| - 1], next')
    ensures Segment(mem', ns, next')
  {
    forall i | 0 <= i < |ns| ensures At(mem', ns[i], NextAt(ns, i, next')) {
      assert At(mem, ns[i], NextAt(ns, i, next));
    }
  }

  /** The memory a list occupies: every write at an address of no block of `ns`, except those from `i` to `j`. */
  ghost predicate Untouched(mem: Memory, mem': Memory, ns: seq<Node>, i: nat, j: nat)
  {
    forall x :: 0 <= x < |ns| && (x < i || j <= x) ==>
      ns[x].addr in mem && ns[x].addr in mem' && mem'[ns[x].addr] == mem[ns[x].addr]
  }

  /**
   * Blocks i..j of the list give way to `ps`: enough that the new blocks are linked among
   * themselves and to what follows, and that whatever pointed to block `i` now points to them.
   */
  lemma Replace(mem: Memory, mem': Memory, head: int, head': int, ns: seq<Node>, i: nat, j: nat, ps: seq<Node>)
    requires i <= j <= |ns| && Linked(mem, head, ns)
    requires Untouched(mem, mem', ns, if i > 0 then i - 1 else 0, j)
    requires Segment(mem', ps, AddrAt(ns, j))
    requires var first := if |ps| > 0 then ps[0].addr else AddrAt(ns, j);
             if i > 0 then head' == head && At(mem', ns[i - 1], first) else head' == first
    ensures Linked(mem', head', ns[..i] + ps + ns[j..])
  {
    var first := if |ps| > 0 then ps[0].addr else AddrAt(ns, j);
    SegmentSplit(mem, ns, 0, j);
    SegmentFrame(mem, mem', ns[j..], 0);
    SegmentJoin(mem', ps, ns[j..], 0);
    SegmentSplit(mem, ns, 0, i);
    if i > 0 {
      SegmentRelink(mem, mem', ns[..i], AddrAt(ns, i), first);
    }
    SegmentJoin(mem', ns[..i], ps + ns[j..], 0);
    assert ns[..i] + (ps + ns[j..]) == ns[..i] + ps + ns[j..];
  }
}
