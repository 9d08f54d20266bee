/** Frame descriptors and the ordered doubly-linked list the second pass
    of the indexer builds: every new descriptor is placed by walking back
    from the tail to the first descriptor it may follow. */
module Frames {
  import opened Common

  /** A media record: its RTP sequence number, its 64-bit adjusted
      timestamp, its payload length and where its payload starts. */
  datatype Frame = Frame(seqNo: U16, ts: int, len: U16, offset: nat)

  /** Sequence-number distance beyond which a smaller number is taken to
      have wrapped past 65535. */
  const SeqWrapGap: int := 10000

  /** `a` comes before `b` in sequence-number order: a nearby larger
      number, or a far-away smaller one (after a 16-bit wrap). */
  predicate SeqPrecedes(a: U16, b: U16)
  {
    || (a < b && b - a < SeqWrapGap)
    || (a > b && a - b > SeqWrapGap)
  }

  lemma {:induction false} SeqPrecedesAsymmetric(a: U16, b: U16)
    ensures SeqPrecedes(a, b) ==> !SeqPrecedes(b, a)
  {
  }

  /** `p` may be linked right after `prior`: its timestamp is larger, or
      the timestamps are equal and its sequence number follows. */
  predicate GoesAfter(prior: Frame, p: Frame)
  {
    prior.ts < p.ts || (prior.ts == p.ts && SeqPrecedes(prior.seqNo, p.seqNo))
  }

  /** No descriptor could be linked before its left neighbour. */
  predicate Ordered(list: seq<Frame>)
  {
    forall i :: 0 <= i < |list| - 1 ==> !GoesAfter(list[i + 1], list[i])
  }

  predicate TsSorted(list: seq<Frame>)
  {
    forall i, j :: 0 <= i <= j < |list| ==> list[i].ts <= list[j].ts
  }

  /** Where the backward walk from `list[i - 1]` stops: the position right
      after the last descriptor `p` may follow, or 0 when there is none. */
  function ScanBack(list: seq<Frame>, p: Frame, i: nat): (k: nat)
    requires i <= |list|
    ensures k <= i
    ensures k > 0 ==> GoesAfter(list[k - 1], p)
    ensures forall j :: k <= j < i ==> !GoesAfter(list[j], p)
    decreases i
  {
    if i == 0 then 0
    else if GoesAfter(list[i - 1], p) then i
    else ScanBack(list, p, i - 1)
  }

  /** The list after `p` is linked in. */
  function InsertOrdered(list: seq<Frame>, p: Frame): (r: seq<Frame>)
    ensures |r| == |list| + 1
    ensures multiset(r) == multiset(list) + multiset{p}
  {
    var k := ScanBack(list, p, |list|);
    assert list == list[..k] + list[k..];
    list[..k] + [p] + list[k..]
  }

  /** Linking in keeps every neighbour pair in order. */
  lemma {:induction false} InsertKeepsOrder(list: seq<Frame>, p: Frame)
    requires Ordered(list)
    ensures Ordered(InsertOrdered(list, p))
  {
    var k := ScanBack(list, p, |list|);
    var r := InsertOrdered(list, p);
    assert r == list[..k] + [p] + list[k..];
    forall i | 0 <= i < |r| - 1
      ensures !GoesAfter(r[i + 1], r[i])
    {
      if i + 1 < k {
        assert r[i] == list[i] && r[i + 1] == list[i + 1];
      } else if i + 1 == k {
        SeqPrecedesAsymmetric(list[i].seqNo, p.seqNo);
      } else if i > k {
        assert r[i] == list[i - 1] && r[i + 1] == list[i];
      }
    }
  }

  /** A list in order is sorted by timestamp. */
  lemma {:induction false} OrderedIsTsSorted(list: seq<Frame>)
    requires Ordered(list)
    ensures TsSorted(list)
    decreases |list|
  {
    if |list| > 1 {
      var init := list[..|list| - 1];
      assert Ordered(init) by {
        forall i | 0 <= i < |init| - 1
          ensures !GoesAfter(init[i + 1], init[i])
        {
          assert init[i] == list[i] && init[i + 1] == list[i + 1];
        }
      }
      OrderedIsTsSorted(init);
      forall i, j | 0 <= i <= j < |list|
        ensures list[i].ts <= list[j].ts
      {
        if j == |list| - 1 && i < j {
          assert init[i].ts <= init[j - 1].ts;
          assert !GoesAfter(list[j], list[j - 1]);
        } else if j < |list| - 1 {
          assert init[i].ts <= init[j].ts;
        }
      }
    }
  }

  /** Within equal timestamps a list in order has its sequence numbers
      rising under the circular comparison, except where they repeat or lie
      exactly 10000 apart, which the comparison leaves undecided. */
  lemma {:induction false} EqualTsSeqRises(list: seq<Frame>, i: nat)
    requires Ordered(list) && i < |list| - 1
    requires list[i].ts == list[i + 1].ts
    ensures var a, b := list[i].seqNo, list[i + 1].seqNo;
            SeqPrecedes(a, b) || a == b || a - b == SeqWrapGap || b - a == SeqWrapGap
  {
    assert !GoesAfter(list[i + 1], list[i]);
  }

  /** A descriptor that follows neither its twin (an equal timestamp with
      a repeated sequence number, or one exactly 10000 away) nor anything
      after the twin is linked before the twin. The comparison is not
      transitive, so a later descriptor can stop the walk first; then the
      new one lands after its twin. */
  lemma {:induction false} LinkedBeforeTwin(list: seq<Frame>, p: Frame, j: nat)
    requires j < |list| && list[j].ts == p.ts
    requires || list[j].seqNo == p.seqNo
             || list[j].seqNo - p.seqNo == SeqWrapGap
             || p.seqNo - list[j].seqNo == SeqWrapGap
    requires forall m :: j < m < |list| ==> !GoesAfter(list[m], p)
    ensures var k := ScanBack(list, p, |list|);
            && k <= j
            && InsertOrdered(list, p)[k] == p
            && InsertOrdered(list, p)[j + 1] == list[j]
  {
    var k := ScanBack(list, p, |list|);
    var r := InsertOrdered(list, p);
    assert r == list[..k] + [p] + list[k..];
    assert r[j + 1] == list[k..][j - k];
  }

  /** In a one-element list, a repeated sequence number at an equal
      timestamp is linked before its twin that came earlier in the file. */
  lemma {:induction false} RepeatedSeqGoesFirst()
    ensures InsertOrdered([Frame(7, 5, 12, 10)], Frame(7, 5, 12, 30)) == [Frame(7, 5, 12, 30), Frame(7, 5, 12, 10)]
  {
    assert !GoesAfter(Frame(7, 5, 12, 10), Frame(7, 5, 12, 30));
  }

  /** Sequence numbers exactly 10000 apart at an equal timestamp, in a
      one-element list: neither follows the other, so whichever comes later
      in the file is linked first, in both file orders. */
  lemma {:induction false} SeqGapUndecided()
    ensures InsertOrdered([Frame(0, 5, 12, 10)], Frame(10000, 5, 12, 30)) == [Frame(10000, 5, 12, 30), Frame(0, 5, 12, 10)]
    ensures InsertOrdered([Frame(10000, 5, 12, 10)], Frame(0, 5, 12, 30)) == [Frame(0, 5, 12, 30), Frame(10000, 5, 12, 10)]
  {
    assert !SeqPrecedes(0, 10000) && !SeqPrecedes(10000, 0);
  }

  /** A descriptor that may follow the tail is appended. */
  lemma {:induction false} InsertAtTail(list: seq<Frame>, p: Frame)
    requires |list| == 0 || GoesAfter(list[|list| - 1], p)
    ensures InsertOrdered(list, p) == list + [p]
  {
    assert list[|list|..] == [];
  }

  /** A descriptor that may follow none of the list becomes its head. */
  lemma {:induction false} InsertAtHead(list: seq<Frame>, p: Frame)
    requires forall j :: 0 <= j < |list| ==> !GoesAfter(list[j], p)
    ensures InsertOrdered(list, p) == [p] + list
  {
    var k := ScanBack(list, p, |list|);
    assert k == 0;
  }

  /** The descriptors stored at `order`, in that order. */
  function Gather(store: seq<Frame>, order: seq<nat>): (r: seq<Frame>)
    requires forall k :: 0 <= k < |order| ==> order[k] < |store|
    ensures |r| == |order|
    ensures forall k :: 0 <= k < |order| ==> r[k] == store[order[k]]
  {
    seq(|order|, k requires 0 <= k < |order| => store[order[k]])
  }

  /** Every entry of `order` is an index below `n`, and none repeats. */
  ghost predicate Distinct(order: seq<nat>, n: nat)
  {
    && (forall k :: 0 <= k < |order| ==> order[k] < n)
    && (forall k, m :: 0 <= k < m < |order| ==> order[k] != order[m])
  }

  /** `next` sends each entry of `order` to the one after it, the last
      to -1. */
  ghost predicate NextLinks(next: seq<int>, order: seq<nat>)
    requires Distinct(order, |next|)
  {
    forall k {:trigger next[order[k]]} :: 0 <= k < |order| ==>
      next[order[k]] == if k + 1 < |order| then order[k + 1] else -1
  }

  /** `prev` sends each entry of `order` to the one before it, the first
      to -1. */
  ghost predicate PrevLinks(prev: seq<int>, order: seq<nat>)
    requires Distinct(order, |prev|)
  {
    forall k {:trigger prev[order[k]]} :: 0 <= k < |order| ==>
      prev[order[k]] == if k > 0 then order[k - 1] else -1
  }

  /** `order` lists every index of `store` exactly once, `next` and
      `prev` link it both ways with -1 at the ends, and `head` and `last`
      are its first and last entries. */
  ghost predicate Linked(store: seq<Frame>, next: seq<int>, prev: seq<int>, head: int, last: int, order: seq<nat>)
  {
    && |next| == |store| && |prev| == |store| && |order| == |store|
    && Distinct(order, |store|)
    && head == (if |order| == 0 then -1 else order[0])
    && last == (if |order| == 0 then -1 else order[|order| - 1])
    && NextLinks(next, order)
    && PrevLinks(prev, order)
  }

  /** The node a walk from the head reaches after `i` steps along
      `next`: the entry at list position `i`, -1 past the end. */
  ghost function NodeAt(order: seq<nat>, i: nat): int
  {
    if i < |order| then order[i] else -1
  }

  /** What a cursor at list position `i` sees: its descriptor, `next`
      leading to position i + 1, `prev` to position i - 1, and the head
      only at position 0. */
  lemma {:induction false} LinkedWalk(store: seq<Frame>, next: seq<int>, prev: seq<int>, head: int, last: int, order: seq<nat>, i: nat)
    requires Linked(store, next, prev, head, last, order) && i < |order|
    ensures 0 <= NodeAt(order, i) < |store| && store[NodeAt(order, i)] == Gather(store, order)[i]
    ensures next[NodeAt(order, i)] == NodeAt(order, i + 1)
    ensures i > 0 ==> prev[NodeAt(order, i)] == NodeAt(order, i - 1)
    ensures NodeAt(order, i) == head <==> i == 0
  {
    assert next[order[i]] == if i + 1 < |order| then order[i + 1] else -1;
    assert prev[order[i]] == if i > 0 then order[i - 1] else -1;
    if i > 0 {
      assert order[0] != order[i];
    }
  }

  /** `order` with `n` spliced in at position `k`, entry by entry. */
  lemma {:induction false} SpliceEntries(order: seq<nat>, k: nat, n: nat)
    requires k <= |order|
    ensures var order' := order[..k] + [n] + order[k..];
            && |order'| == |order| + 1
            && (forall i :: 0 <= i < k ==> order'[i] == order[i])
            && order'[k] == n
            && (forall i :: k < i <= |order| ==> order'[i] == order[i - 1])
  {
  }

  /** The spliced order still lists each index once. */
  lemma {:induction false} SpliceDistinct(order: seq<nat>, k: nat, n: nat)
    requires k <= |order| && Distinct(order, n)
    ensures Distinct(order[..k] + [n] + order[k..], n + 1)
  {
    SpliceEntries(order, k, n);
    var order' := order[..k] + [n] + order[k..];
    forall i, j | 0 <= i < j < |order'|
      ensures order'[i] != order'[j]
    {
      if i < k && j > k {
        assert order[i] != order[j - 1];
      }
    }
  }

  /** The forward links after the splice. */
  lemma {:induction false} SpliceNext(next: seq<int>, order: seq<nat>, k: nat, next': seq<int>)
    requires k <= |order| && |next| == |order| && |next'| == |order| + 1
    requires Distinct(order, |order|) && NextLinks(next, order)
    requires var n := |order|;
             && next'[n] == (if k < n then order[k] else -1)
             && (forall i :: 0 <= i < n && (k == 0 || i != order[k - 1]) ==> next'[i] == next[i])
             && (k > 0 ==> next'[order[k - 1]] == n)
    ensures Distinct(order[..k] + [|order|] + order[k..], |next'|)
    ensures NextLinks(next', order[..k] + [|order|] + order[k..])
  {
    var n := |order|;
    SpliceEntries(order, k, n);
    SpliceDistinct(order, k, n);
    var order' := order[..k] + [n] + order[k..];
    forall i | 0 <= i < |order'|
      ensures next'[order'[i]] == if i + 1 < |order'| then order'[i + 1] else -1
    {
      if i + 1 < k {
        assert order[i] != order[k - 1];
        assert next[order[i]] == order[i + 1];
      } else if i > k {
        assert k == 0 || order[i - 1] != order[k - 1];
        assert next[order[i - 1]] == if i < n then order[i] else -1;
      }
    }
  }

  /** The backward links after the splice. */
  lemma {:induction false} SplicePrev(prev: seq<int>, order: seq<nat>, k: nat, prev': seq<int>)
    requires k <= |order| && |prev| == |order| && |prev'| == |order| + 1
    requires Distinct(order, |order|) && PrevLinks(prev, order)
    requires var n := |order|;
             && prev'[n] == (if k > 0 then order[k - 1] else -1)
             && (forall i :: 0 <= i < n && (k == n || i != order[k]) ==> prev'[i] == prev[i])
             && (k < n ==> prev'[order[k]] == n)
    ensures Distinct(order[..k] + [|order|] + order[k..], |prev'|)
    ensures PrevLinks(prev', order[..k] + [|order|] + order[k..])
  {
    var n := |order|;
    SpliceEntries(order, k, n);
    SpliceDistinct(order, k, n);
    var order' := order[..k] + [n] + order[k..];
    forall i | 0 <= i < |order'|
      ensures prev'[order'[i]] == if i > 0 then order'[i - 1] else -1
    {
      if i < k {
        assert k == n || order[i] != order[k];
        assert prev[order[i]] == if i > 0 then order[i - 1] else -1;
      } else if i > k + 1 {
        assert order[i - 1] != order[k];
        assert prev[order[i - 1]] == order[i - 2];
      }
    }
  }

  /** The descriptors in list order after the splice. */
  lemma {:induction false} SpliceGather(store: seq<Frame>, order: seq<nat>, p: Frame, k: nat)
    requires k <= |order| && Distinct(order, |store|)
    ensures Distinct(order[..k] + [|store|] + order[k..], |store + [p]|)
    ensures Gather(store + [p], order[..k] + [|store|] + order[k..]) == Gather(store, order)[..k] + [p] + Gather(store, order)[k..]
  {
    var n := |store|;
    SpliceEntries(order, k, n);
    SpliceDistinct(order, k, n);
    var store', order' := store + [p], order[..k] + [n] + order[k..];
    var g, g' := Gather(store, order), Gather(store', order');
    forall i | 0 <= i <= |order|
      ensures g'[i] == (g[..k] + [p] + g[k..])[i]
    {
      if i > k {
        assert g'[i] == store'[order[i - 1]];
      }
    }
  }

  /** Splicing a new descriptor, stored at the end of `store`, into
      position `k` of the list: `next'`, `prev'`, `head'` and `last'` are
      the links after the pointer updates. */
  lemma {:induction false} SpliceLinks(store: seq<Frame>, next: seq<int>, prev: seq<int>, head: int, last: int, order: seq<nat>,
                    p: Frame, k: nat, next': seq<int>, prev': seq<int>, head': int, last': int)
    requires Linked(store, next, prev, head, last, order) && k <= |order|
    requires var n := |store|;
             && |next'| == n + 1 && |prev'| == n + 1
             && next'[n] == (if k < n then order[k] else -1)
             && prev'[n] == (if k > 0 then order[k - 1] else -1)
             && (forall i :: 0 <= i < n && (k == 0 || i != order[k - 1]) ==> next'[i] == next[i])
             && (k > 0 ==> next'[order[k - 1]] == n)
             && (forall i :: 0 <= i < n && (k == n || i != order[k]) ==> prev'[i] == prev[i])
             && (k < n ==> prev'[order[k]] == n)
             && head' == (if k == 0 then n else head)
             && last' == (if k == n then n else last)
    ensures Linked(store + [p], next', prev', head', last', order[..k] + [|store|] + order[k..])
    ensures Gather(store + [p], order[..k] + [|store|] + order[k..]) == Gather(store, order)[..k] + [p] + Gather(store, order)[k..]
  {
    var n, order' := |store|, order[..k] + [|store|] + order[k..];
    SpliceEntries(order, k, n);
    assert head' == order'[0] by {
      if k > 0 {
        assert order'[0] == order[0];
      }
    }
    assert last' == order'[n] by {
      if k < n {
        assert order'[n] == order[n - 1];
      }
    }
    SpliceDistinct(order, k, n);
    SpliceNext(next, order, k, next');
    SplicePrev(prev, order, k, prev');
    SpliceGather(store, order, p, k);
  }

  /** Linking `p`, stored at index n, right after the descriptor at
      position k - 1: its old successor (if any) points back to `p`. */
  lemma {:induction false} LinkAfter(store: seq<Frame>, next: seq<int>, prev: seq<int>, head: int, last: int, order: seq<nat>,
                  p: Frame, k: nat)
    requires Linked(store, next, prev, head, last, order) && 0 < k <= |order|
    ensures var n, t := |store|, order[k - 1];
            var nx, pv := next + [-1], prev + [-1];
            var nx1 := if k < n then nx[n := order[k]] else nx;
            var pv1 := if k < n then pv[order[k] := n] else pv;
            var order' := order[..k] + [n] + order[k..];
            && Linked(store + [p], nx1[t := n], pv1[n := t], head, if k < n then last else n, order')
            && Gather(store + [p], order') == Gather(store, order)[..k] + [p] + Gather(store, order)[k..]
  {
    var n, t := |store|, order[k - 1];
    var nx, pv := next + [-1], prev + [-1];
    var nx1 := if k < n then nx[n := order[k]] else nx;
    var pv1 := if k < n then pv[order[k] := n] else pv;
    SpliceLinks(store, next, prev, head, last, order, p, k, nx1[t := n], pv1[n := t], head, if k < n then last else n);
  }

  /** Linking `p`, stored at index n, in front of the head (n == 0 when
      the list is empty). */
  lemma {:induction false} LinkAtHead(store: seq<Frame>, next: seq<int>, prev: seq<int>, head: int, last: int, order: seq<nat>,
                   p: Frame)
    requires Linked(store, next, prev, head, last, order)
    ensures var n := |store|;
            var nx, pv := next + [-1], prev + [-1];
            var order' := [n] + order;
            && (n > 0 ==> Linked(store + [p], nx[n := head], pv[head := n], n, last, order'))
            && (n == 0 ==> Linked(store + [p], nx, pv, n, n, order'))
            && Gather(store + [p], order') == [p] + Gather(store, order)
  {
    var n := |store|;
    var nx, pv := next + [-1], prev + [-1];
    assert order[..0] + [n] + order[0..] == [n] + order;
    if n > 0 {
      SpliceLinks(store, next, prev, head, last, order, p, 0, nx[n := head], pv[head := n], n, last);
    } else {
      SpliceLinks(store, next, prev, head, last, order, p, 0, nx, pv, n, n);
    }
  }

  /** The list of descriptors as the indexer links it. Descriptors live in
      `store` in allocation order, -1 stands for NULL, and `order` (ghost)
      lists the store indices from `head` to `last`. */
  class FrameList {
    var store: seq<Frame>
    var next: seq<int>
    var prev: seq<int>
    var head: int
    var last: int
    ghost var order: seq<nat>

    /** `next` and `prev` link `order` both ways; `head` and `last` are
        its ends; every descriptor is on the list exactly once. */
    ghost predicate Valid()
      reads this
    {
      Linked(store, next, prev, head, last, order)
    }

    /** The descriptors from head to tail. */
    ghost function Contents(): seq<Frame>
      reads this
      requires Valid()
    {
      Gather(store, order)
    }

    constructor ()
      ensures Valid() && Contents() == []
    {
      store, next, prev := [], [], [];
      head, last := -1, -1;
      order := [];
    }

    /** Links `p` in: walking back from the tail, right after the first
        descriptor it may follow, or at the head when there is none. */
    method Insert(p: Frame)
      modifies this
      requires Valid()
      ensures Valid()
      ensures Contents() == InsertOrdered(old(Contents()), p)
    {
      var st, nx, pv, hd, tl, ord := Link(store, next, prev, head, last, order, p);
      store, next, prev, head, last := st, nx, pv, hd, tl;
      order := ord;
    }

    /** The pointer work of `Insert` on the links as values: the new
        descriptor is stored at index |store| and spliced in after `tmp`,
        the descriptor the backward walk stops at. */
    static method Link(store: seq<Frame>, next: seq<int>, prev: seq<int>, head: int, last: int,
                       ghost order: seq<nat>, p: Frame)
      returns (st: seq<Frame>, nx: seq<int>, pv: seq<int>, hd: int, tl: int, ghost ord: seq<nat>)
      requires Linked(store, next, prev, head, last, order)
      ensures st == store + [p]
      ensures Linked(st, nx, pv, hd, tl, ord)
      ensures Gather(st, ord) == InsertOrdered(Gather(store, order), p)
    {
      var tmp, k := WalkBack(store, prev, last, order, p);
      if tmp != -1 {
        st, nx, pv, hd, tl, ord := LinkAfterTmp(store, next, prev, head, last, order, p, tmp, k);
      } else {
        st, nx, pv, hd, tl, ord := LinkFirst(store, next, prev, head, last, order, p, k);
      }
    }

    /** `p` goes right after `tmp`, the descriptor at position k - 1; the
        old successor of `tmp`, if any, now points back to `p`. */
    static method LinkAfterTmp(store: seq<Frame>, next: seq<int>, prev: seq<int>, head: int, last: int,
                               ghost order: seq<nat>, p: Frame, tmp: int, ghost k: nat)
      returns (st: seq<Frame>, nx: seq<int>, pv: seq<int>, hd: int, tl: int, ghost ord: seq<nat>)
      requires Linked(store, next, prev, head, last, order)
      requires 0 < k <= |order| && tmp == order[k - 1]
      ensures st == store + [p] && ord == order[..k] + [|store|] + order[k..]
      ensures Linked(st, nx, pv, hd, tl, ord)
      ensures Gather(st, ord) == Gather(store, order)[..k] + [p] + Gather(store, order)[k..]
    {
      var n := |store|;
      LinkAfter(store, next, prev, head, last, order, p, k);
      // The new descriptor, unlinked.
      st, nx, pv, hd, tl := store + [p], next + [-1], prev + [-1], head, last;
      ord := order[..k] + [n] + order[k..];
      assert nx[tmp] == if k < n then order[k] else -1;
      if nx[tmp] != -1 {
        // Inserting in the middle.
        pv := pv[nx[tmp] := n];
        nx := nx[n := nx[tmp]];
      } else {
        tl := n;
      }
      nx := nx[tmp := n];
      pv := pv[n := tmp];
    }

    /** `p` becomes the head: the list was empty, or the walk back passed
        every descriptor. */
    static method LinkFirst(store: seq<Frame>, next: seq<int>, prev: seq<int>, head: int, last: int,
                            ghost order: seq<nat>, p: Frame, ghost k: nat)
      returns (st: seq<Frame>, nx: seq<int>, pv: seq<int>, hd: int, tl: int, ghost ord: seq<nat>)
      requires Linked(store, next, prev, head, last, order) && k == 0
      ensures st == store + [p] && ord == order[..k] + [|store|] + order[k..]
      ensures Linked(st, nx, pv, hd, tl, ord)
      ensures Gather(st, ord) == [p] + Gather(store, order)
    {
      var n := |store|;
      LinkAtHead(store, next, prev, head, last, order, p);
      assert order[..k] + [n] + order[k..] == [n] + order;
      // The new descriptor, unlinked.
      st, nx, pv, hd, tl := store + [p], next + [-1], prev + [-1], head, last;
      ord := [n] + order;
      if hd == -1 {
        // The first descriptor is the list itself and its tail.
        tl := n;
      } else {
        nx := nx[n := hd];
        pv := pv[hd := n];
      }
      hd := n;
    }

    /** The backward walk from the tail: `tmp` is the descriptor `p` goes
        right after (-1 for none) and `k` the list position `p` takes. */
    static method WalkBack(store: seq<Frame>, prev: seq<int>, last: int, ghost order: seq<nat>, p: Frame)
      returns (tmp: int, ghost k: nat)
      requires |prev| == |store| == |order|
      requires forall i :: 0 <= i < |order| ==> order[i] < |store|
      requires last == (if |order| == 0 then -1 else order[|order| - 1])
      requires forall i {:trigger prev[order[i]]} :: 0 <= i < |order| ==>
                 prev[order[i]] == if i > 0 then order[i - 1] else -1
      ensures k == ScanBack(Gather(store, order), p, |store|)
      ensures tmp == if k > 0 then order[k - 1] else -1
    {
      ghost var list := Gather(store, order);
      var n := |store|;
      tmp, k := last, n;
      while tmp != -1
        invariant 0 <= k <= n
        invariant tmp == if k > 0 then order[k - 1] else -1
        invariant forall j :: k <= j < n ==> !GoesAfter(list[j], p)
        decreases k
      {
        assert store[tmp] == list[k - 1];
        if GoesAfter(store[tmp], p) {
          break;
        }
        assert prev[order[k - 1]] == if k > 1 then order[k - 2] else -1;
        tmp := prev[tmp];
        k := k - 1;
      }
      assert k > 0 ==> GoesAfter(list[k - 1], p);
    }
  }
}
