/**
 The k-way merge of the external sort, over values: which pairs come out of an ordered set that holds
 one entry per unfinished run and silently ignores an entry equal to one it already holds.
 */
module MergeSpec {
  import opened Decimal
  import opened PairText
  import opened PairOrder

  /** `std::set::insert` on elements ascending by `key`: an element with an equal key blocks it. */
  function InsertBy<T>(h: seq<T>, x: T, key: T -> Pair): seq<T> {
    if h == [] || Less(key(x), key(h[0])) then [x] + h
    else if key(x) == key(h[0]) then h
    else [h[0]] + InsertBy(h[1..], x, key)
  }

  /** What is unread of a run whose first unread pair is in the heap. */
  datatype Lane = Lane(head: Pair, tail: seq<Pair>)

  function HeadOf(l: Lane): Pair {
    l.head
  }

  /** How often `x` is still unread in a lane. */
  function LaneTimes(l: Lane, x: Pair): nat {
    (if l.head == x then 1 else 0) + Times(l.tail, x)
  }

  function Push(h: seq<Lane>, run: seq<Pair>): seq<Lane> {
    if run == [] then h else InsertBy(h, Lane(run[0], run[1..]), HeadOf)
  }

  function InitHeap(runs: seq<seq<Pair>>): seq<Lane> {
    if runs == [] then [] else Push(InitHeap(runs[..|runs| - 1]), runs[|runs| - 1])
  }

  /** How often `x` is still unread in all lanes. */
  function Unread(h: seq<Lane>, x: Pair): nat {
    if h == [] then 0 else LaneTimes(h[0], x) + Unread(h[1..], x)
  }

  /** In how many lanes `x` is still unread. */
  function LanesWith(h: seq<Lane>, x: Pair): nat {
    if h == [] then 0 else (if LaneTimes(h[0], x) > 0 then 1 else 0) + LanesWith(h[1..], x)
  }

  /** How many pairs are still unread. */
  function Total(h: seq<Lane>): nat {
    if h == [] then 0 else 1 + |h[0].tail| + Total(h[1..])
  }

  /** Some lane starts with `x`. */
  predicate HasHead(h: seq<Lane>, x: Pair) {
    h != [] && (h[0].head == x || HasHead(h[1..], x))
  }

  predicate Ascends(l: Lane) {
    Sorted(l.tail) && forall i :: 0 <= i < |l.tail| ==> LessEq(l.head, l.tail[i])
  }

  /** The heap invariant: heads strictly ascend, and every lane ascends. */
  predicate HeapOk(h: seq<Lane>) {
    h == [] || (Ascends(h[0]) && (|h| > 1 ==> Less(h[0].head, h[1].head)) && HeapOk(h[1..]))
  }

  /** A lane blocked by an equal head changes nothing. */
  lemma {:induction false} PushBlocked(h: seq<Lane>, l: Lane)
    requires HeapOk(h) && HasHead(h, l.head)
    ensures InsertBy(h, l, HeadOf) == h
  {
    if Less(l.head, h[0].head) {
      NoSmallerHead(h, l.head);
    } else if l.head != h[0].head {
      PushBlocked(h[1..], l);
    }
  }

  /** Any other lane is added whole. */
  lemma {:induction false} PushAdds(h: seq<Lane>, l: Lane, x: Pair)
    requires !HasHead(h, l.head)
    ensures var h' := InsertBy(h, l, HeadOf);
            && Unread(h', x) == Unread(h, x) + LaneTimes(l, x)
            && LanesWith(h', x) == LanesWith(h, x) + (if LaneTimes(l, x) > 0 then 1 else 0)
            && Total(h') == Total(h) + 1 + |l.tail|
  {
    if h == [] || Less(l.head, h[0].head) {
      assert ([l] + h)[1..] == h;
    } else {
      PushAdds(h[1..], l, x);
      var h' := InsertBy(h[1..], l, HeadOf);
      assert ([h[0]] + h')[1..] == h';
    }
  }

  lemma {:induction false} NoSmallerHead(h: seq<Lane>, x: Pair)
    requires HeapOk(h) && (h == [] || Less(x, h[0].head))
    ensures !HasHead(h, x)
  {
    if h != [] {
      NoSmallerHead(h[1..], x);
    }
  }

  lemma {:induction false} PushKeepsHeapOk(h: seq<Lane>, l: Lane)
    requires HeapOk(h) && Ascends(l)
    ensures var h' := InsertBy(h, l, HeadOf);
            HeapOk(h') && h' != [] && (h'[0] == l || (h != [] && h'[0] == h[0]))
  {
    if h == [] || Less(l.head, h[0].head) {
      assert ([l] + h)[1..] == h;
    } else if l.head != h[0].head {
      PushKeepsHeapOk(h[1..], l);
      var h' := InsertBy(h[1..], l, HeadOf);
      assert ([h[0]] + h')[1..] == h';
    }
  }

  /** The heap after its least head was read and the next pair of that lane was inserted. */
  function Pop(h: seq<Lane>): seq<Lane>
    requires h != []
  {
    Push(h[1..], h[0].tail)
  }

  /** The next pair of the popped lane is already a head. */
  predicate Blocked(h: seq<Lane>)
    requires h != []
  {
    h[0].tail != [] && HasHead(h[1..], h[0].tail[0])
  }

  /** Inserting a lane adds its pairs or nothing. */
  lemma {:induction false} InsertAddsAtMost(h: seq<Lane>, l: Lane)
    ensures Total(InsertBy(h, l, HeadOf)) <= Total(h) + 1 + |l.tail|
  {
    if h != [] && !Less(l.head, h[0].head) && l.head != h[0].head {
      InsertAddsAtMost(h[1..], l);
      assert InsertBy(h, l, HeadOf)[1..] == InsertBy(h[1..], l, HeadOf);
    } else {
      assert ([l] + h)[1..] == h;
    }
  }

  /** Every step of the merge takes a pair away for good, whatever is in the heap. */
  lemma {:induction false} PopShrinks(h: seq<Lane>)
    requires h != []
    ensures Total(Pop(h)) < Total(h)
  {
    if h[0].tail != [] {
      InsertAddsAtMost(h[1..], Lane(h[0].tail[0], h[0].tail[1..]));
    }
  }

  lemma {:induction false} PopKeepsHeapOk(h: seq<Lane>)
    requires h != [] && HeapOk(h)
    ensures HeapOk(Pop(h)) && Total(Pop(h)) < Total(h)
    ensures Blocked(h) ==> Pop(h) == h[1..]
  {
    var tail := h[0].tail;
    if tail != [] {
      var l := Lane(tail[0], tail[1..]);
      PushKeepsHeapOk(h[1..], l);
      if Blocked(h) {
        PushBlocked(h[1..], l);
      } else {
        PushAdds(h[1..], l, l.head);
      }
    }
  }

  lemma {:induction false} PopAdds(h: seq<Lane>, x: Pair)
    requires h != [] && !Blocked(h)
    ensures Unread(h, x) == (if h[0].head == x then 1 else 0) + Unread(Pop(h), x)
    ensures LanesWith(Pop(h), x) == LanesWith(h[1..], x) + (if Times(h[0].tail, x) > 0 then 1 else 0)
  {
    var tail := h[0].tail;
    if tail != [] {
      PushAdds(h[1..], Lane(tail[0], tail[1..]), x);
    }
  }

  /** Popping the least head until the heap is empty or the end marker comes up. */
  function Drain(h: seq<Lane>): seq<Pair>
    decreases Total(h)
  {
    if h == [] || h[0].head.word == U64_MAX then []
    else
      PopShrinks(h);
      [h[0].head] + Drain(Pop(h))
  }

  lemma {:induction false} TimesPositive(s: seq<Pair>, x: Pair)
    ensures Times(s, x) > 0 <==> x in s
  {
    if s != [] {
      TimesPositive(s[1..], x);
    }
  }

  /** The least head is least among everything unread. */
  lemma {:induction false} LeastHead(h: seq<Lane>, x: Pair)
    requires HeapOk(h) && Unread(h, x) > 0
    ensures h != [] && LessEq(h[0].head, x)
  {
    TimesPositive(h[0].tail, x);
    if LaneTimes(h[0], x) == 0 {
      LeastHead(h[1..], x);
    }
  }

  lemma {:induction false} LanesOfUnread(h: seq<Lane>, x: Pair)
    ensures LanesWith(h, x) > 0 <==> Unread(h, x) > 0
    ensures HasHead(h, x) ==> LanesWith(h, x) > 0
  {
    if h != [] {
      LanesOfUnread(h[1..], x);
    }
  }

  /** Whatever collisions occur, nothing is invented. */
  lemma {:induction false} DrainInventsNothing(h: seq<Lane>, x: Pair)
    requires HeapOk(h)
    ensures Times(Drain(h), x) <= Unread(h, x)
    decreases Total(h)
  {
    if h != [] && h[0].head.word != U64_MAX {
      PopKeepsHeapOk(h);
      DrainInventsNothing(Pop(h), x);
      assert Drain(h)[1..] == Drain(Pop(h));
      if !Blocked(h) {
        PopAdds(h, x);
      }
    }
  }

  /** Whatever collisions occur, the merge ascends. */
  lemma {:induction false} DrainAscends(h: seq<Lane>)
    requires HeapOk(h)
    ensures Sorted(Drain(h))
    decreases Total(h)
  {
    if h != [] && h[0].head.word != U64_MAX {
      PopKeepsHeapOk(h);
      DrainAscends(Pop(h));
      var rest := Drain(Pop(h));
      forall i | 0 <= i < |rest| ensures LessEq(h[0].head, rest[i]) {
        TimesPositive(rest, rest[i]);
        DrainInventsNothing(Pop(h), rest[i]);
        if !Blocked(h) {
          PopAdds(h, rest[i]);
        }
        LeastHead(h, rest[i]);
      }
    }
  }

  lemma {:induction false} InsertKeepsHeads(h: seq<Lane>, l: Lane, x: Pair)
    requires HasHead(h, x) || l.head == x
    ensures HasHead(InsertBy(h, l, HeadOf), x)
  {
    if h == [] || Less(l.head, h[0].head) {
      assert ([l] + h)[1..] == h;
    } else if l.head != h[0].head && h[0].head != x {
      InsertKeepsHeads(h[1..], l, x);
      assert ([h[0]] + InsertBy(h[1..], l, HeadOf))[1..] == InsertBy(h[1..], l, HeadOf);
    }
  }

  lemma {:induction false} PopKeepsHeads(h: seq<Lane>, x: Pair)
    requires h != [] && HasHead(h[1..], x)
    ensures HasHead(Pop(h), x)
  {
    if h[0].tail != [] {
      InsertKeepsHeads(h[1..], Lane(h[0].tail[0], h[0].tail[1..]), x);
    }
  }

  /** Whatever collides, a pair that is in the heap is written, unless its word is the marker. */
  lemma {:induction false} HeadsAreWritten(h: seq<Lane>, x: Pair)
    requires HeapOk(h) && HasHead(h, x) && x.word < U64_MAX
    ensures x in Drain(h)
    decreases Total(h)
  {
    LanesOfUnread(h, x);
    LeastHead(h, x);
    assert h[0].head.word < U64_MAX;
    if h[0].head != x {
      PopKeepsHeads(h, x);
      PopKeepsHeapOk(h);
      HeadsAreWritten(Pop(h), x);
    }
  }

  /** No pair is unread in two lanes. */
  ghost predicate Disjoint(h: seq<Lane>) {
    forall x :: LanesWith(h, x) <= 1
  }

  /** No unread word is the end marker. */
  ghost predicate NoMarker(h: seq<Lane>) {
    forall x :: Unread(h, x) > 0 ==> x.word < U64_MAX
  }

  /** The merge delivers every unread pair as often as it occurs. */
  ghost predicate Delivers(h: seq<Lane>) {
    forall x :: Times(Drain(h), x) == Unread(h, x)
  }

  /** Popping keeps the lanes of every pair but the popped one, which is in no other lane. */
  lemma {:induction false} PopKeepsLanes(h: seq<Lane>, x: Pair)
    requires h != [] && HeapOk(h) && !Blocked(h)
    ensures LanesWith(Pop(h), x) <= LanesWith(h, x)
    ensures LanesWith(h, x) > 1 ==> LanesWith(Pop(h), x) == LanesWith(h, x)
  {
    PopAdds(h, x);
    if x == h[0].head && LanesWith(h[1..], x) > 0 {
      LanesOfUnread(h[1..], x);
      LeastHead(h[1..], x);
      assert false;
    }
  }

  lemma {:induction false} BlockedPopLoses(h: seq<Lane>)
    requires h != [] && HeapOk(h) && Blocked(h) && h[0].head.word != U64_MAX
    ensures !Disjoint(h) && !Delivers(h)
  {
    var x := h[0].tail[0];
    LanesOfUnread(h[1..], x);
    assert LanesWith(h, x) > 1;
    PopKeepsHeapOk(h);
    DrainInventsNothing(Pop(h), x);
    assert Drain(h)[1..] == Drain(Pop(h));
    assert Times(Drain(h), x) < Unread(h, x);
  }

  lemma {:induction false} StepDelivers(h: seq<Lane>)
    requires h != [] && HeapOk(h) && !Blocked(h) && h[0].head.word != U64_MAX
    ensures HeapOk(Pop(h))
    ensures Delivers(h) <==> Delivers(Pop(h))
    ensures NoMarker(h) <==> NoMarker(Pop(h))
    ensures Disjoint(h) <==> Disjoint(Pop(h))
  {
    PopKeepsHeapOk(h);
    assert Drain(h)[1..] == Drain(Pop(h));
    forall x
      ensures Times(Drain(h), x) - Unread(h, x) == Times(Drain(Pop(h)), x) - Unread(Pop(h), x)
      ensures Unread(h, x) == (if h[0].head == x then 1 else 0) + Unread(Pop(h), x)
      ensures LanesWith(Pop(h), x) <= LanesWith(h, x)
      ensures LanesWith(h, x) > 1 ==> LanesWith(Pop(h), x) == LanesWith(h, x)
    {
      PopAdds(h, x);
      PopKeepsLanes(h, x);
    }
  }

  /** The merge delivers every pair exactly when no pair is in two lanes and no word is the marker. */
  lemma {:induction false} DrainIsExact(h: seq<Lane>)
    requires HeapOk(h)
    ensures Delivers(h) <==> Disjoint(h) && NoMarker(h)
    decreases Total(h)
  {
    if h == [] {
      assert Disjoint(h);
    } else if h[0].head.word == U64_MAX {
      assert Unread(h, h[0].head) > 0;
      assert Times(Drain(h), h[0].head) == 0;
    } else if Blocked(h) {
      BlockedPopLoses(h);
    } else {
      StepDelivers(h);
      PopKeepsHeapOk(h);
      DrainIsExact(Pop(h));
    }
  }
}
