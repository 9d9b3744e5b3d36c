/** The skip list under a memtable (db/skiplist.h) and the memtable on top of it (db/memtable.cc).
    Node heights are random in LevelDB; here they are a parameter of Insert, so every result holds for all heights. */
module SkipLists {
  import opened DbFormat
  import opened WriteBatches

  const MAX_HEIGHT: nat := 12

  class Node {
    const entry: Entry
    /** One link for each level below the node's height. */
    var next: seq<Node?>

    constructor (entry: Entry, height: nat)
      ensures this.entry == entry && |next| == height
    {
      this.entry := entry;
      next := seq(height, _ => null);
    }

    method SetNext(n: nat, x: Node?)
      requires n < |next|
      modifies this
      ensures next == old(next)[n := x]
    {
      next := next[n := x];
    }
  }

  // ---- Which node follows at a level ----

  /** Of nodes that are linked below linked[i], the first from `from` on that is linked at `level`. */
  ghost function First(linked: seq<nat>, from: nat, level: nat): (j: nat)
    requires from <= |linked|
    ensures from <= j <= |linked|
    ensures forall k :: from <= k < j ==> linked[k] <= level
    ensures j < |linked| ==> linked[j] > level
    decreases |linked| - from
  {
    if from == |linked| || linked[from] > level then from else First(linked, from + 1, level)
  }

  /** The last before `to` that is linked at `level`. */
  ghost function Last(linked: seq<nat>, to: nat, level: nat): (j: nat)
    requires 0 < to <= |linked| && linked[0] > level
    ensures j < to && linked[j] > level
    ensures forall k :: j < k < to ==> linked[k] <= level
  {
    if linked[to - 1] > level then to - 1 else Last(linked, to - 1, level)
  }

  lemma FirstIs(linked: seq<nat>, from: nat, level: nat, j: nat)
    requires from <= j <= |linked| && (forall k :: from <= k < j ==> linked[k] <= level)
    requires j < |linked| ==> linked[j] > level
    ensures First(linked, from, level) == j
  {
  }

  lemma LastIs(linked: seq<nat>, to: nat, level: nat, i: nat)
    requires 0 < to <= |linked| && linked[0] > level && i < to && linked[i] > level
    requires forall k :: i < k < to ==> linked[k] <= level
    ensures Last(linked, to, level) == i
  {
  }

  lemma LastSame(linked: seq<nat>, other: seq<nat>, to: nat, level: nat)
    requires 0 < to <= |linked| && to <= |other| && linked[0] > level
    requires forall k :: 0 <= k < to ==> linked[k] == other[k]
    ensures Last(linked, to, level) == Last(other, to, level)
  {
    LastIs(other, to, level, Last(linked, to, level));
  }

  /** A new element at index p. */
  ghost predicate IsInsertion<T>(s: seq<T>, more: seq<T>, p: nat, x: T) {
    && p <= |s| && |more| == |s| + 1 && more[p] == x
    && (forall k :: 0 <= k < p ==> more[k] == s[k])
    && (forall k :: p < k < |more| ==> more[k] == s[k - 1])
  }

  ghost function Insertion<T>(s: seq<T>, p: nat, x: T): (more: seq<T>)
    requires p <= |s|
    ensures IsInsertion(s, more, p, x)
  {
    s[..p] + [x] + s[p..]
  }

  /** If the next linked node is past the insertion, it has moved by one. */
  lemma MovedFirst(linked: seq<nat>, more: seq<nat>, p: nat, i: nat, level: nat)
    requires IsInsertion(linked, more, p, 1) && i < |linked|
    requires p <= First(linked, i + 1, level) && (level > 0 || p <= i)
    ensures First(more, (if i < p then i else i + 1) + 1, level) == First(linked, i + 1, level) + 1
  {
    var f, from := First(linked, i + 1, level), (if i < p then i else i + 1) + 1;
    forall k | from <= k < f + 1 ensures more[k] <= level {
      if k > p {
        assert more[k] == linked[k - 1];
      }
    }
    FirstIs(more, from, level, f + 1);
  }

  /** After a node is inserted at index p, linked at the bottom level only, the other links lead to the same nodes. */
  lemma InsertedFirst(linked: seq<nat>, more: seq<nat>, p: nat, i: nat, level: nat)
    requires IsInsertion(linked, more, p, 1) && 0 < p && i < |linked| && linked[i] > level
    requires forall k :: 0 <= k < |linked| ==> linked[k] >= 1
    ensures var i', f := if i < p then i else i + 1, First(linked, i + 1, level);
      First(more, i' + 1, level) == (if level == 0 && i == p - 1 then p else if f < p then f else f + 1)
  {
    var f := First(linked, i + 1, level);
    if level == 0 && i == p - 1 {
      FirstIs(more, i + 1, level, p);
    } else if f < p {
      FirstIs(more, i + 1, level, f);
    } else {
      MovedFirst(linked, more, p, i, level);
    }
  }

  lemma KeptLink(chain: seq<Node>, linked: seq<nat>, chain': seq<Node>, linked': seq<nat>, x: Node, p: nat,
                 i: nat, level: nat, link: Node?)
    requires |chain| == |linked| && 0 < p && IsInsertion(chain, chain', p, x) && IsInsertion(linked, linked', p, 1)
    requires forall k :: 0 <= k < |linked| ==> linked[k] >= 1
    requires i < |linked| && level < linked[i] && (i != p - 1 || level > 0) && LeadsOn(chain, linked, i, level, link)
    ensures LeadsOn(chain', linked', if i < p then i else i + 1, level, link)
  {
    InsertedFirst(linked, linked', p, i, level);
  }

  /** Linking the node at index p at one more level. */
  lemma RaisedFirst(linked: seq<nat>, p: nat, raised: nat, i: nat, level: nat)
    requires 0 < p < |linked| && linked[p] == raised < linked[0] && i < |linked| && linked[p := raised + 1][i] > level
    ensures First(linked[p := raised + 1], i + 1, level)
         == if level == raised && i == Last(linked, p, level) then p else First(linked, i + 1, level)
  {
    FirstIs(linked[p := raised + 1], i + 1, level,
            if level == raised && i == Last(linked, p, level) then p else First(linked, i + 1, level));
  }

  /** The entries of a chain: all nodes but the head, in bottom-level order. */
  ghost function Entries(chain: seq<Node>): (es: seq<Entry>)
    requires |chain| > 0
    ensures |es| == |chain| - 1 && forall i :: 0 <= i < |es| ==> es[i] == chain[i + 1].entry
  {
    seq(|chain| - 1, i requires 0 <= i < |chain| - 1 => chain[i + 1].entry)
  }

  ghost predicate ShapeOk(maxHeight: nat, chain: seq<Node>, linked: seq<nat>) {
    && 1 <= |chain| == |linked| && linked[0] == MAX_HEIGHT && 1 <= maxHeight <= MAX_HEIGHT
    && (forall i :: 0 < i < |linked| ==> 1 <= linked[i] <= maxHeight)
    && (forall i, j :: 0 <= i < j < |chain| ==> chain[i] != chain[j])
    && Sorted(Entries(chain))
  }

  lemma InsertedEntries(chain: seq<Node>, x: Node, p: nat, chain': seq<Node>)
    requires |chain| > 0 && p == LowerBound(Entries(chain), x.entry.key) + 1 && IsInsertion(chain, chain', p, x)
    ensures Entries(chain') == InsertSorted(Entries(chain), x.entry)
  {
    assert IsInsertion(Entries(chain), Insertion(Entries(chain), p - 1, x.entry), p - 1, x.entry);
  }

  lemma InsertedShape(maxHeight: nat, chain: seq<Node>, linked: seq<nat>, x: Node, p: nat, chain': seq<Node>, linked': seq<nat>)
    requires ShapeOk(maxHeight, chain, linked) && x !in chain && p == LowerBound(Entries(chain), x.entry.key) + 1
    requires forall e :: e in Entries(chain) ==> e.key != x.entry.key
    requires IsInsertion(chain, chain', p, x) && IsInsertion(linked, linked', p, 1)
    ensures ShapeOk(maxHeight, chain', linked')
  {
    InsertedEntries(chain, x, p, chain');
    InsertKeepsSorted(Entries(chain), x.entry);
  }

  ghost function NodeAt(chain: seq<Node>, j: nat): Node? {
    if j < |chain| then chain[j] else null
  }

  /** A link at `level` of the node at index i leads to the next node that is linked there. */
  ghost predicate LeadsOn(chain: seq<Node>, linked: seq<nat>, i: nat, level: nat, link: Node?)
    requires i < |linked|
  {
    link == NodeAt(chain, First(linked, i + 1, level))
  }

  /** The link that changes when x is inserted at index p and linked at the bottom: that of the node before it. The
      link of x is the one that this node had. */
  lemma BottomLink(chain: seq<Node>, linked: seq<nat>, chain': seq<Node>, linked': seq<nat>, x: Node, p: nat, link: Node?)
    requires |chain| == |linked| && 0 < p && IsInsertion(chain, chain', p, x) && IsInsertion(linked, linked', p, 1)
    requires (forall k :: 0 <= k < |linked| ==> linked[k] >= 1) && LeadsOn(chain, linked, p - 1, 0, link)
    ensures LeadsOn(chain', linked', p - 1, 0, x) && LeadsOn(chain', linked', p, 0, link)
  {
    InsertedFirst(linked, linked', p, p - 1, 0);
    FirstIs(linked', p + 1, 0, p + 1);
    FirstIs(linked, p, 0, p);
  }

  /** The link that changes when the node at index p is linked one level higher: that of the node before it there. */
  lemma RaisedLink(chain: seq<Node>, linked: seq<nat>, p: nat, level: nat, link: Node?)
    requires |chain| == |linked| && 0 < p < |linked| && linked[p] == level < linked[0]
    requires LeadsOn(chain, linked, Last(linked, p, level), level, link)
    ensures var raised := linked[p := level + 1];
      LeadsOn(chain, raised, Last(linked, p, level), level, chain[p]) && LeadsOn(chain, raised, p, level, link)
  {
    var q := Last(linked, p, level);
    RaisedFirst(linked, p, level, q, level);
    RaisedFirst(linked, p, level, p, level);
    FirstAfterLast(linked, p, level);
  }

  lemma FirstAfterLast(linked: seq<nat>, p: nat, level: nat)
    requires 0 < p < |linked| && linked[p] == level < linked[0]
    ensures First(linked, Last(linked, p, level) + 1, level) == First(linked, p + 1, level)
  {
    FirstIs(linked, Last(linked, p, level) + 1, level, First(linked, p + 1, level));
  }

  ghost predicate LinkIs(chain: seq<Node>, linked: seq<nat>, nexts: seq<seq<Node?>>, i: nat, level: nat)
    requires i < |chain| == |linked| == |nexts|
  {
    level < |nexts[i]| && LeadsOn(chain, linked, i, level, nexts[i][level])
  }

  /** The links that the nodes of a chain have. */
  ghost predicate LinksAre(chain: seq<Node>, linked: seq<nat>, nexts: seq<seq<Node?>>) {
    && |chain| == |linked| == |nexts|
    && forall i, level {:trigger LinkIs(chain, linked, nexts, i, level)} ::
         0 <= i < |chain| && 0 <= level < linked[i] ==> LinkIs(chain, linked, nexts, i, level)
  }

  class SkipList {
    const head: Node
    var maxHeight: nat
    /** The head and all nodes in bottom-level order, and at how many levels each is linked: during an insertion
        the new node has fewer links than its height. */
    ghost var chain: seq<Node>
    ghost var linked: seq<nat>

    ghost function Contents(): seq<Entry>
      requires |chain| > 0
      reads this
    {
      Entries(chain)
    }

    ghost predicate Link(i: nat, level: nat)
      requires i < |chain| == |linked|
      reads `chain, `linked, chain
    {
      level < |chain[i].next| && LeadsOn(chain, linked, i, level, chain[i].next[level])
    }

    ghost predicate Shape()
      reads this
    {
      |chain| > 0 && chain[0] == head && ShapeOk(maxHeight, chain, linked)
    }

    /** What holds after every single store of an insertion: at each level, the nodes linked there form a list in
        key order, part of the list below. */
    ghost predicate Linked()
      reads this, chain
    {
      Shape() && forall i, level {:trigger Link(i, level)} :: 0 <= i < |chain| && 0 <= level < linked[i] ==> Link(i, level)
    }

    /** Between insertions every node is linked at all its levels. */
    ghost predicate Complete()
      reads this, chain
    {
      Linked() && forall i :: 0 <= i < |chain| ==> |chain[i].next| == linked[i]
    }

    constructor ()
      ensures Complete() && Contents() == [] && fresh(head)
    {
      head := new Node(Entry(InternalKey(0.0, 0, Deletion), []), MAX_HEIGHT);
      maxHeight := 1;
      new;
      chain, linked := [head], [MAX_HEIGHT];
      for i := 0 to MAX_HEIGHT
        invariant |head.next| == MAX_HEIGHT && forall k :: 0 <= k < i ==> head.next[k] == null
        invariant chain == [head] && linked == [MAX_HEIGHT] && maxHeight == 1
        modifies head
      {
        head.SetNext(i, null);
      }
    }

    /** Null is after every key. */
    static predicate KeyIsAfterNode(key: InternalKey, n: Node?) {
      n != null && Less(n.entry.key, key)
    }

    /** The index in the chain of the earliest node at or after the key. */
    ghost function Earliest(key: InternalKey): (p: nat)
      requires |chain| > 0
      reads this
      ensures 1 <= p <= |chain|
    {
      LowerBound(Contents(), key) + 1
    }

    /** A node is before the key exactly if it comes before that index. */
    lemma BeforeEarliest(key: InternalKey, i: nat)
      requires Shape() && 0 < i < |chain|
      ensures Less(chain[i].entry.key, key) <==> i < Earliest(key)
    {
      var es, p := Contents(), LowerBound(Contents(), key);
      assert es[i - 1] == chain[i].entry;
      if p < i - 1 {
        assert Less(es[p].key, es[i - 1].key);
      }
    }

    /** One load of a search that stands before the key: where the link leads, and on which side of the key. */
    lemma SearchStep(key: InternalKey, i: nat, level: nat)
      requires Linked() && i < Earliest(key) && level < linked[i]
      ensures level < |chain[i].next|
      ensures var j, next := First(linked, i + 1, level), chain[i].next[level];
        && next == NodeAt(chain, j)
        && (KeyIsAfterNode(key, next) <==> j < Earliest(key))
        && (j >= Earliest(key) ==> i == Last(linked, Earliest(key), level))
        && (level == 0 ==> j == i + 1)
    {
      assert Link(i, level);
      var j := First(linked, i + 1, level);
      if j < |chain| {
        BeforeEarliest(key, j);
      }
      if j >= Earliest(key) {
        LastIs(linked, Earliest(key), level, i);
      }
    }

    /** What FindGreaterOrEqual stores in prev[level]. */
    static ghost predicate IsPrev(chain: seq<Node>, linked: seq<nat>, x: Node, p: nat, level: nat)
      requires |linked| == |chain| && 0 < p <= |chain| && linked[0] > level
    {
      x == chain[Last(linked, p, level)]
    }

    /** The earliest node at or after the key, and at each level below maxHeight the node before it. */
    method FindGreaterOrEqual(key: InternalKey) returns (x: Node?, prev: seq<Node>)
      requires Linked()
      ensures x == NodeAt(chain, Earliest(key)) && |prev| == maxHeight
      ensures forall level :: 0 <= level < maxHeight ==> IsPrev(chain, linked, prev[level], Earliest(key), level)
    {
      var n := head;
      var level := maxHeight - 1;
      prev := seq(maxHeight, _ => head);
      ghost var i: nat, p := 0, Earliest(key);
      while true
        invariant 0 <= level < maxHeight == |prev| && i < p && level < linked[i] && n == chain[i]
        invariant forall m :: level < m < maxHeight ==> IsPrev(chain, linked, prev[m], p, m)
        decreases level, |chain| - i
      {
        SearchStep(key, i, level);
        var next := n.next[level];
        if KeyIsAfterNode(key, next) {
          n := next;
          i := First(linked, i + 1, level);
        } else {
          prev := prev[level := n];
          if level == 0 {
            return next, prev;
          }
          level := level - 1;
        }
      }
    }

    /** The last node before the key, or the head. */
    method FindLessThan(key: InternalKey) returns (x: Node)
      requires Linked()
      ensures x == chain[Earliest(key) - 1]
    {
      x := head;
      var level := maxHeight - 1;
      ghost var i: nat := 0;
      while true
        invariant 0 <= level < maxHeight && i < Earliest(key) && x == chain[i] && level < linked[i]
        decreases level, |chain| - i
      {
        SearchStep(key, i, level);
        var next := x.next[level];
        if next == null || !Less(next.entry.key, key) {
          if level == 0 {
            return x;
          }
          level := level - 1;
        } else {
          x := next;
          i := First(linked, i + 1, level);
        }
      }
    }

    /** The last node, or the head. */
    method FindLast() returns (x: Node)
      requires Linked()
      ensures x == chain[|chain| - 1]
    {
      x := head;
      var level := maxHeight - 1;
      ghost var i: nat := 0;
      while true
        invariant 0 <= level < maxHeight && i < |chain| && x == chain[i] && level < linked[i]
        decreases level, |chain| - i
      {
        assert Link(i, level);
        var next := x.next[level];
        if next == null {
          if level == 0 {
            return x;
          }
          level := level - 1;
        } else {
          x := next;
          i := First(linked, i + 1, level);
        }
      }
    }

    // ---- Insertion, one store at a time ----

    /** The next store may link x at `level`, after `before`: at the bottom level x is a new node; above, it is the
        node at index p of the chain, linked at all levels below. */
    ghost predicate CanLink(x: Node, before: Node, level: nat, p: nat)
      reads this, chain, x
    {
      && Linked() && 0 < p <= |chain| && level < maxHeight && level < |x.next|
      && IsPrev(chain, linked, before, p, level)
      && if level == 0 then
           x !in chain && p == Earliest(x.entry.key) && forall e :: e in Contents() ==> e.key != x.entry.key
         else p < |chain| && x == chain[p] && linked[p] == level
    }

    /** The first store of a step: the link of x, which no search can see yet. */
    method PrepareLink(x: Node, before: Node, level: nat, ghost p: nat)
      requires CanLink(x, before, level, p)
      modifies x
      ensures CanLink(x, before, level, p) && level < |before.next|
      ensures x.next == old(x.next)[level := before.next[level]]
    {
      assert Link(Last(linked, p, level), level);
      assert forall i, m :: 0 <= i < |chain| && 0 <= m < linked[i] ==> Link(i, m);
      x.SetNext(level, before.next[level]);
      forall i: nat, m: nat | i < |chain| && m < linked[i] ensures Link(i, m) {
        assert old(Link(i, m));
      }
    }

    /** The state just before `before` is made to point to x. */
    ghost predicate Prepared(x: Node, before: Node, level: nat, p: nat)
      reads this, chain, x, before
    {
      CanLink(x, before, level, p) && level < |before.next| && x.next[level] == before.next[level]
    }

    ghost function Nexts(): (nexts: seq<seq<Node?>>)
      reads `chain, chain
      ensures |nexts| == |chain| && forall i :: 0 <= i < |chain| ==> nexts[i] == chain[i].next
    {
      var nodes := chain;
      seq(|nodes|, i requires 0 <= i < |nodes| reads nodes => nodes[i].next)
    }

    /** From what the links were before the store to what they are after it: x is new, at index p. */
    lemma LinkedAtBottom(x: Node, p: nat, was: seq<Node>, had: seq<nat>, nexts: seq<seq<Node?>>)
      requires |was| > 0 && was[0] == head && ShapeOk(maxHeight, was, had) && x !in was
      requires p == LowerBound(Entries(was), x.entry.key) + 1 && forall e :: e in Entries(was) ==> e.key != x.entry.key
      requires LinksAre(was, had, nexts) && IsInsertion(was, chain, p, x) && IsInsertion(had, linked, p, 1)
      requires x.next != [] && nexts[p - 1] != [] && x.next[0] == nexts[p - 1][0]
      requires forall i :: 0 <= i < |was| ==> was[i].next == if i == p - 1 then nexts[i][0 := x] else nexts[i]
      ensures Linked()
    {
      InsertedShape(maxHeight, was, had, x, p, chain, linked);
      assert LinkIs(was, had, nexts, p - 1, 0);
      BottomLink(was, had, chain, linked, x, p, nexts[p - 1][0]);
      forall i: nat, m: nat | i < |chain| && m < linked[i] ensures Link(i, m) {
        if i != p && !(i == p - 1 && m == 0) {
          OtherLinkAtBottom(x, p, was, had, nexts, i, m);
        }
      }
    }

    lemma OtherLinkAtBottom(x: Node, p: nat, was: seq<Node>, had: seq<nat>, nexts: seq<seq<Node?>>, i: nat, m: nat)
      requires 0 < p && LinksAre(was, had, nexts) && IsInsertion(was, chain, p, x) && IsInsertion(had, linked, p, 1)
      requires forall k :: 0 <= k < |had| ==> had[k] >= 1
      requires nexts[p - 1] != [] && forall k :: 0 <= k < |was| ==> was[k].next == if k == p - 1 then nexts[k][0 := x] else nexts[k]
      requires i < |chain| == |linked| && m < linked[i] && i != p && !(i == p - 1 && m == 0)
      ensures Link(i, m)
    {
      var k := if i < p then i else i - 1;
      assert LinkIs(was, had, nexts, k, m);
      KeptLink(was, had, chain, linked, x, p, k, m, nexts[k][m]);
    }

    lemma LinkedAbove(x: Node, level: nat, p: nat, had: seq<nat>, nexts: seq<seq<Node?>>)
      requires |chain| > 0 && chain[0] == head && ShapeOk(maxHeight, chain, had) && LinksAre(chain, had, nexts)
      requires 0 < p < |chain| && chain[p] == x && had[p] == level < maxHeight && linked == had[p := level + 1]
      requires var q := Last(had, p, level);
        && level < |x.next| && level < |nexts[q]| && x.next[level] == nexts[q][level]
        && forall i :: 0 <= i < |chain| ==> chain[i].next == if i == q then nexts[i][level := x] else nexts[i]
      ensures Linked()
    {
      var q := Last(had, p, level);
      assert LinkIs(chain, had, nexts, q, level);
      RaisedLink(chain, had, p, level, nexts[q][level]);
      forall i: nat, m: nat | i < |chain| && m < linked[i] ensures Link(i, m) {
        if (i != p && i != q) || m != level {
          assert LinkIs(chain, had, nexts, i, m);
          RaisedFirst(had, p, level, i, m);
        }
      }
    }

    lemma LinksNow()
      requires Linked()
      ensures LinksAre(chain, linked, Nexts())
    {
      forall i: nat, m: nat | i < |chain| && m < linked[i] ensures LinkIs(chain, linked, Nexts(), i, m) {
        assert Link(i, m);
      }
    }

    /** The second store of a step publishes x at `level`: only here does the list that a search sees change. */
    method PublishBottom(x: Node, before: Node, ghost p: nat)
      requires Prepared(x, before, 0, p)
      modifies before, `chain, `linked
      ensures Linked() && before.next == old(before.next)[0 := x]
      ensures IsInsertion(old(chain), chain, p, x) && IsInsertion(old(linked), linked, p, 1)
    {
      LinksNow();
      ghost var was, had, nexts := chain, linked, Nexts();
      assert before == was[p - 1];
      before.SetNext(0, x);
      chain, linked := Insertion(was, p, x), Insertion(had, p, 1);
      LinkedAtBottom(x, p, was, had, nexts);
    }

    method PublishAbove(x: Node, before: Node, level: nat, ghost p: nat)
      requires level > 0 && Prepared(x, before, level, p)
      modifies before, `linked
      ensures Linked() && before.next == old(before.next)[level := x]
      ensures linked == old(linked)[p := level + 1]
    {
      LinksNow();
      ghost var had, nexts := linked, Nexts();
      before.SetNext(level, x);
      linked := had[p := level + 1];
      LinkedAbove(x, level, p, had, nexts);
    }

    /** One step of the loop of Insert: its two stores. */
    method LinkAt(x: Node, before: Node, level: nat, ghost p: nat)
      requires CanLink(x, before, level, p)
      modifies x, before, `chain, `linked
      ensures Linked() && |x.next| == old(|x.next|) && |before.next| == old(|before.next|)
      ensures level == 0 ==> IsInsertion(old(chain), chain, p, x) && IsInsertion(old(linked), linked, p, 1)
      ensures level > 0 ==> chain == old(chain) && linked == old(linked)[p := level + 1]
    {
      PrepareLink(x, before, level, p);
      if level == 0 {
        PublishBottom(x, before, p);
      } else {
        PublishAbove(x, before, level, p);
      }
    }

    /** Before the step for `level`, x is linked at all levels below it and at no other. */
    ghost predicate Inserting(x: Node, p: nat, level: nat, nodes: seq<Node>, heights: seq<nat>)
      reads `chain, `linked
    {
      if level == 0 then chain == nodes && linked == heights && x !in nodes
      else IsInsertion(nodes, chain, p, x) && IsInsertion(heights, linked, p, level)
    }

    /** A node higher than all others: its predecessors at the new levels are the head. */
    method RaiseHeight(height: nat, prev: seq<Node>, ghost p: nat) returns (more: seq<Node>)
      requires Complete() && maxHeight < height <= MAX_HEIGHT && |prev| == maxHeight && 0 < p <= |chain|
      requires forall m :: 0 <= m < |prev| ==> IsPrev(chain, linked, prev[m], p, m)
      modifies `maxHeight
      ensures Complete() && maxHeight == height == |more|
      ensures forall m :: 0 <= m < |more| ==> IsPrev(chain, linked, more[m], p, m)
    {
      more := prev;
      for i := maxHeight to height
        invariant |more| == i
        invariant forall m :: 0 <= m < i ==> IsPrev(chain, linked, more[m], p, m)
        modifies {}
      {
        LastIs(linked, p, i, 0);
        more := more + [head];
      }
      maxHeight := height;
      forall i: nat, m: nat | i < |chain| && m < linked[i] ensures Link(i, m) {
        assert old(Link(i, m));
      }
    }

    /** Insert, for any height that RandomHeight may choose. */
    method Insert(entry: Entry, height: nat)
      requires Complete() && 1 <= height <= MAX_HEIGHT
      requires forall e :: e in Contents() ==> e.key != entry.key
      modifies this, chain
      ensures Complete() && Contents() == InsertSorted(old(Contents()), entry)
      ensures maxHeight == if height > old(maxHeight) then height else old(maxHeight)
      ensures IsInsertion(old(linked), linked, old(Earliest(entry.key)), height)
      ensures forall n :: n in chain ==> n in old(chain) || fresh(n)
    {
      ghost var p := Earliest(entry.key);
      var _, prev := FindGreaterOrEqual(entry.key);
      if height > maxHeight {
        prev := RaiseHeight(height, prev, p);
      }
      var x := new Node(entry, height);
      LinkAll(x, prev, p);
    }

    /** Every node has a link for each level that it is linked at. */
    static ghost predicate FullyLinked(nodes: seq<Node>, heights: seq<nat>)
      reads nodes
    {
      |nodes| == |heights| && forall i :: 0 <= i < |nodes| ==> |nodes[i].next| == heights[i]
    }

    /** One turn of the loop of Insert. */
    method LinkLevel(x: Node, before: Node, level: nat, ghost p: nat, ghost nodes: seq<Node>, ghost heights: seq<nat>)
      requires Linked() && level < maxHeight && level < |x.next| && Inserting(x, p, level, nodes, heights)
      requires FullyLinked(nodes, heights) && 0 < p <= |nodes| && x !in nodes && IsPrev(nodes, heights, before, p, level)
      requires level == 0 ==> p == Earliest(x.entry.key) && forall e :: e in Contents() ==> e.key != x.entry.key
      modifies x, before, `chain, `linked
      ensures Linked() && |x.next| == old(|x.next|) && Inserting(x, p, level + 1, nodes, heights)
      ensures FullyLinked(nodes, heights)
    {
      assert linked[0] > level;
      LastSame(heights, linked, p, level);
      LinkAt(x, before, level, p);
    }

    method LinkAll(x: Node, prev: seq<Node>, ghost p: nat)
      requires Complete() && x !in chain && 1 <= |x.next| <= maxHeight == |prev|
      requires p == Earliest(x.entry.key) && forall e :: e in Contents() ==> e.key != x.entry.key
      requires forall m :: 0 <= m < |prev| ==> IsPrev(chain, linked, prev[m], p, m)
      modifies x, chain, `chain, `linked
      ensures Complete() && Contents() == InsertSorted(old(Contents()), x.entry)
      ensures IsInsertion(old(linked), linked, p, old(|x.next|))
      ensures forall n :: n in chain ==> n in old(chain) || n == x
    {
      ghost var nodes, heights := chain, linked;
      var height := |x.next|;
      for i := 0 to height
        invariant Linked() && |x.next| == height && Inserting(x, p, i, nodes, heights) && FullyLinked(nodes, heights)
      {
        LinkLevel(x, prev[i], i, p, nodes, heights);
      }
      InsertedEntries(nodes, x, p, chain);
      assert Complete() by { AllLinked(x, p, nodes, heights); }
    }

    lemma AllLinked(x: Node, p: nat, nodes: seq<Node>, heights: seq<nat>)
      requires Linked() && |x.next| > 0 && Inserting(x, p, |x.next|, nodes, heights) && FullyLinked(nodes, heights)
      ensures Complete()
    {
    }

    /** Contains: whether an entry with this key is in the list. */
    method Contains(key: InternalKey) returns (found: bool)
      requires Linked()
      ensures found <==> exists e :: e in Contents() && e.key == key
    {
      var x, _ := FindGreaterOrEqual(key);
      found := x != null && !Less(key, x.entry.key);
      ghost var es, p := Contents(), Earliest(key) - 1;
      if found {
        TagTellsType(key, x.entry.key);
        assert es[p] == x.entry && x.entry in es;
      }
      assert forall i :: p < i < |es| ==> Less(es[p].key, es[i].key);
      assert forall i :: 0 <= i < |es| && es[i].key == key ==> i == p;
    }
  }

  lemma TagTellsType(a: InternalKey, b: InternalKey)
    requires !Less(a, b) && !Less(b, a)
    ensures a == b
  {
    assert a.Tag() == b.Tag();
  }

  // ---- A search that runs while an insertion does ----

  /** The search has loaded `node` from a link at `level`: it is linked there, and it is the head or before the key. */
  ghost predicate StandsAt(chain: seq<Node>, linked: seq<nat>, node: Node, level: nat, key: InternalKey) {
    |chain| == |linked| && exists i :: 0 <= i < |chain| && Stands(chain, linked, i, node, level, key)
  }

  ghost predicate Stands(chain: seq<Node>, linked: seq<nat>, i: nat, node: Node, level: nat, key: InternalKey)
    requires i < |chain| == |linked|
  {
    chain[i] == node && level < linked[i] && (i == 0 || Less(node.entry.key, key))
  }

  /** Publishing a new node at the bottom level leaves a search where it stands. */
  lemma StandsAfterInsertion(chain: seq<Node>, linked: seq<nat>, chain': seq<Node>, linked': seq<nat>, x: Node, p: nat,
                             node: Node, level: nat, key: InternalKey)
    requires 0 < p && IsInsertion(chain, chain', p, x) && IsInsertion(linked, linked', p, 1)
    requires StandsAt(chain, linked, node, level, key)
    ensures StandsAt(chain', linked', node, level, key)
  {
    var i :| 0 <= i < |chain| && Stands(chain, linked, i, node, level, key);
    assert Stands(chain', linked', if i < p then i else i + 1, node, level, key);
  }

  /** So does linking it at one more level. */
  lemma StandsAfterRaise(chain: seq<Node>, linked: seq<nat>, p: nat, node: Node, level: nat, key: InternalKey)
    requires p < |linked| && StandsAt(chain, linked, node, level, key)
    ensures StandsAt(chain, linked[p := linked[p] + 1], node, level, key)
  {
    var i :| 0 <= i < |chain| && Stands(chain, linked, i, node, level, key);
    assert Stands(chain, linked[p := linked[p] + 1], i, node, level, key);
  }

  /** FindGreaterOrEqual as a reader runs it: one load of a link at a time, with stores in between. */
  class Search {
    const list: SkipList
    const key: InternalKey
    var node: Node
    var level: nat
    var found: Option<Node?>

    ghost predicate Standing()
      reads this, list`chain, list`linked
    {
      StandsAt(list.chain, list.linked, node, level, key)
    }

    constructor (list: SkipList, key: InternalKey)
      requires list.Linked()
      ensures this.list == list && this.key == key && Standing() && found.None?
    {
      this.list, this.key := list, key;
      node, level, found := list.head, list.maxHeight - 1, None;
      new;
      assert Stands(list.chain, list.linked, 0, node, level, key);
    }

    /** Whatever was published since the last load, the search goes on from where it stands; the load that ends it
        gives the earliest node at or after the key of the list as it is then. */
    method Step()
      requires list.Linked() && Standing() && found.None?
      modifies this
      ensures Standing()
      ensures found.Some? ==> found.value == NodeAt(list.chain, list.Earliest(key))
      ensures found.None? ==> level <= old(level)
      ensures found.None? && level == old(level) ==> old(node) == list.head || Less(old(node).entry.key, node.entry.key)
    {
      ghost var i :| 0 <= i < |list.chain| && Stands(list.chain, list.linked, i, node, level, key);
      if i > 0 {
        list.BeforeEarliest(key, i);
      }
      list.SearchStep(key, i, level);
      ghost var j := First(list.linked, i + 1, level);
      var next := node.next[level];
      if SkipList.KeyIsAfterNode(key, next) {
        if i > 0 {
          assert list.Contents()[i - 1] == node.entry && list.Contents()[j - 1] == next.entry;
        }
        node := next;
        assert Stands(list.chain, list.linked, j, node, level, key);
      } else if level == 0 {
        found := Some(next);
      } else {
        level := level - 1;
        assert Stands(list.chain, list.linked, i, node, level, key);
      }
    }
  }

  // ---- The iterator ----

  class SkipListIterator {
    const list: SkipList
    var node: Node?
    /** Which entry of the list the iterator is at; their number if it is not valid. */
    ghost var pos: nat

    ghost predicate At()
      reads this, list, list.chain
    {
      list.Linked() && pos <= |list.Contents()| && node == NodeAt(list.chain, pos + 1)
    }

    constructor (list: SkipList)
      requires list.Linked()
      ensures At() && this.list == list && node == null
    {
      this.list := list;
      node := null;
      pos := |list.Contents()|;
    }

    method Next()
      requires At() && node != null
      modifies this
      ensures At() && pos == old(pos) + 1
    {
      assert list.Link(pos + 1, 0);
      node := node.next[0];
      pos := pos + 1;
    }

    /** There are no links back: Prev is a search for the last node before the key. */
    method Prev()
      requires At() && node != null
      modifies this
      ensures At() && pos == if old(pos) == 0 then |list.Contents()| else old(pos) - 1
    {
      ghost var key := node.entry.key;
      list.BeforeEarliest(key, pos + 1);
      if pos > 0 {
        list.BeforeEarliest(key, pos);
        assert Less(list.Contents()[pos - 1].key, list.Contents()[pos].key);
      }
      node := list.FindLessThan(node.entry.key);
      if node == list.head {
        node := null;
      }
      pos := if pos == 0 then |list.Contents()| else pos - 1;
    }

    method Seek(target: InternalKey)
      requires list.Linked()
      modifies this
      ensures At() && pos == LowerBound(list.Contents(), target)
    {
      var x, _ := list.FindGreaterOrEqual(target);
      node := x;
      pos := LowerBound(list.Contents(), target);
    }

    method SeekToFirst()
      requires list.Linked()
      modifies this
      ensures At() && pos == 0
    {
      assert list.Link(0, 0);
      node := list.head.next[0];
      pos := 0;
    }

    method SeekToLast()
      requires list.Linked()
      modifies this
      ensures At() && pos == if |list.Contents()| == 0 then 0 else |list.Contents()| - 1
    {
      node := list.FindLast();
      if node == list.head {
        node := null;
      }
      pos := if |list.Contents()| == 0 then 0 else |list.Contents()| - 1;
    }
  }

  // ---- The memtable ----

  class MemTable {
    const table: SkipList

    ghost predicate Valid()
      reads this, table, table.chain
    {
      table.Complete()
    }

    constructor ()
      ensures Valid() && table.Contents() == [] && fresh(table) && fresh(table.chain)
    {
      table := new SkipList();
    }

    /** Add; the height is the skip list's choice. */
    method Add(seqNo: SequenceNumber, vtype: ValueType, key: UserKey, value: Bytes, height: nat)
      requires Valid() && 1 <= height <= MAX_HEIGHT
      requires forall e :: e in table.Contents() ==> e.key != InternalKey(key, seqNo, vtype)
      modifies table, table.chain
      ensures Valid() && table.Contents() == InsertSorted(old(table.Contents()), Entry(InternalKey(key, seqNo, vtype), value))
      ensures forall n :: n in table.chain ==> n in old(table.chain) || fresh(n)
    {
      table.Insert(Entry(InternalKey(key, seqNo, vtype), value), height);
    }

    /** Get: whether there is an entry for the key that the sequence number can see, and what the newest one says. */
    method Get(key: UserKey, s: SequenceNumber) returns (hit: bool, answer: Option<Bytes>)
      requires Valid()
      ensures hit == Seek(table.Contents(), key, s).Some? && answer == Answer(Seek(table.Contents(), key, s))
      ensures !hit <==> NoneVisible(ToSet(table.Contents()), key, s)
      ensures hit ==> exists e :: IsNewest(ToSet(table.Contents()), key, s, e) && answer == Answer(Some(e))
    {
      var iter := new SkipListIterator(table);
      iter.Seek(SeekKey(key, s));
      hit, answer := false, None;
      SeekFindsNewest(table.Contents(), key, s);
      if iter.node != null && iter.node.entry.key.user == key {
        hit := true;
        if iter.node.entry.key.vtype.Value? {
          answer := Some(iter.node.entry.value);
        }
      }
    }
  }
}
