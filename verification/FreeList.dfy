/** The allocator's free list: blocks in address order, never touching each other. */
module FreeList {
  datatype Block = Block(begin: nat, size: nat) {
    function End(): nat {
      begin + size
    }

    predicate Holds(x: nat) {
      begin <= x < End()
    }
  }

  /** Blocks from `lo` on and within `hi`, with a strict gap between neighbours; only a block at the
      very end may be empty. */
  predicate Spaced(fs: seq<Block>, lo: nat, hi: nat) {
    fs == [] ||
    (lo <= fs[0].begin && fs[0].End() <= hi && (fs[0].size > 0 || fs[0].begin == hi)
     && Spaced(fs[1..], fs[0].End() + 1, hi))
  }

  /** Some block of the list holds byte `x`. */
  predicate Covers(fs: seq<Block>, x: nat) {
    fs != [] && (fs[0].Holds(x) || Covers(fs[1..], x))
  }

  /** Where a block appended to `fs` may start. */
  function Next(fs: seq<Block>, lo: nat): nat {
    if fs == [] then lo else fs[|fs| - 1].End() + 1
  }

  lemma {:induction false} SpacedAppend(a: seq<Block>, b: seq<Block>, lo: nat, hi: nat)
    ensures Spaced(a + b, lo, hi) <==> Spaced(a, lo, hi) && Spaced(b, Next(a, lo), hi)
  {
    if a == [] {
      assert a + b == b;
    } else {
      SpacedAppend(a[1..], b, a[0].End() + 1, hi);
      assert (a + b)[1..] == a[1..] + b;
      assert Next(a[1..], a[0].End() + 1) == Next(a, lo);
    }
  }

  lemma {:induction false} CoversAppend(a: seq<Block>, b: seq<Block>, x: nat)
    ensures Covers(a + b, x) <==> Covers(a, x) || Covers(b, x)
  {
    if a == [] {
      assert a + b == b;
    } else {
      CoversAppend(a[1..], b, x);
      assert (a + b)[1..] == a[1..] + b;
    }
  }

  /** Starting lower or ending the bound earlier changes nothing that the first block does not see. */
  lemma {:induction false} SpacedFrom(fs: seq<Block>, lo: nat, lo': nat, hi: nat)
    requires Spaced(fs, lo, hi) && (fs == [] || lo' <= fs[0].begin)
    ensures Spaced(fs, lo', hi)
  {
  }

  lemma {:induction false} CoversInRange(fs: seq<Block>, lo: nat, hi: nat, x: nat)
    requires Spaced(fs, lo, hi) && Covers(fs, x)
    ensures lo <= x < hi
  {
    if !fs[0].Holds(x) {
      CoversInRange(fs[1..], fs[0].End() + 1, hi, x);
    }
  }

  /** The index of the first block that has room for `n` bytes, or the length. */
  function FirstFit(fs: seq<Block>, n: nat): (i: nat)
    ensures i <= |fs|
    ensures forall j :: 0 <= j < i ==> fs[j].size < n
    ensures i < |fs| ==> fs[i].size >= n
  {
    if fs == [] || fs[0].size >= n then 0 else 1 + FirstFit(fs[1..], n)
  }

  /** What is left of a block when its first `n` bytes are taken. */
  function Remnant(f: Block, n: nat): seq<Block>
    requires n <= f.size
  {
    if n == f.size then [] else [Block(f.begin + n, f.size - n)]
  }

  /** The first `n` bytes of block `i` are taken out of the list. */
  function Split(fs: seq<Block>, i: nat, n: nat): seq<Block>
    requires i < |fs| && n <= fs[i].size
  {
    fs[..i] + Remnant(fs[i], n) + fs[i + 1..]
  }

  /** The index of the first block at or behind the end of `b`, or the length. */
  function Nearest(fs: seq<Block>, b: Block): (i: nat)
    ensures i <= |fs|
    ensures forall j :: 0 <= j < i ==> fs[j].begin < b.End()
    ensures i < |fs| ==> b.End() <= fs[i].begin
  {
    if fs == [] || b.End() <= fs[0].begin then 0 else 1 + Nearest(fs[1..], b)
  }

  /** Block `b` absorbs the block that starts where it ends. */
  function Absorb(b: Block, right: seq<Block>): (Block, seq<Block>) {
    if right != [] && b.End() == right[0].begin
    then (Block(b.begin, b.size + right[0].size), right[1..])
    else (b, right)
  }

  /** Block `b` is put before `right` and behind `left`, absorbing neighbours it touches. */
  function Join(left: seq<Block>, b: Block, right: seq<Block>): seq<Block> {
    JoinLeft(left, Absorb(b, right).0, Absorb(b, right).1)
  }

  /** The last block of `left` absorbs `c` if it ends where `c` begins. */
  function JoinLeft(left: seq<Block>, c: Block, right: seq<Block>): seq<Block> {
    if left != [] && left[|left| - 1].End() == c.begin
    then left[..|left| - 1] + [Block(left[|left| - 1].begin, left[|left| - 1].size + c.size)] + right
    else left + [c] + right
  }

  /** The free list after block `b` was given back. */
  function Release(fs: seq<Block>, b: Block): seq<Block> {
    var i := Nearest(fs, b);
    Join(fs[..i], b, fs[i..])
  }

  /** A run of covered bytes lies in one block, so first fit finds room no later than the run. */
  lemma {:induction false} FirstFitIsLowest(fs: seq<Block>, lo: nat, hi: nat, x: nat, n: nat)
    requires Spaced(fs, lo, hi) && n > 0
    requires forall y :: x <= y < x + n ==> Covers(fs, y)
    ensures FirstFit(fs, n) < |fs| && fs[FirstFit(fs, n)].begin <= x
  {
    assert Covers(fs, x);
    var f := fs[0];
    if f.Holds(x) {
      if x + n > f.End() {
        assert Covers(fs, f.End()) && !f.Holds(f.End());
        CoversInRange(fs[1..], f.End() + 1, hi, f.End());
        assert false;
      }
    } else {
      CoversInRange(fs[1..], f.End() + 1, hi, x);
      forall y | x <= y < x + n ensures Covers(fs[1..], y) {
        assert Covers(fs, y) && !f.Holds(y);
      }
      FirstFitIsLowest(fs[1..], f.End() + 1, hi, x, n);
    }
  }

  lemma {:induction false} BlockIsCovered(fs: seq<Block>, i: nat, x: nat)
    requires i < |fs| && fs[i].Holds(x)
    ensures Covers(fs, x)
  {
    if i > 0 {
      BlockIsCovered(fs[1..], i - 1, x);
    }
  }

  lemma {:induction false} SplitFirstSpaced(fs: seq<Block>, n: nat, lo: nat, hi: nat)
    requires Spaced(fs, lo, hi) && fs != [] && 0 < n <= fs[0].size
    ensures Spaced(Split(fs, 0, n), lo, hi)
  {
    var rest := Block(fs[0].begin + n, fs[0].size - n);
    if rest.size == 0 {
      assert Split(fs, 0, n) == fs[1..];
      SpacedFrom(fs[1..], fs[0].End() + 1, lo, hi);
    } else {
      assert Split(fs, 0, n) == [rest] + fs[1..];
    }
  }

  lemma {:induction false} SplitBehind(fs: seq<Block>, i: nat, n: nat)
    requires 0 < i < |fs| && n <= fs[i].size
    ensures Split(fs, i, n) == [fs[0]] + Split(fs[1..], i - 1, n)
  {
  }

  /** Taking bytes out keeps the list spaced and uncovers exactly those bytes. */
  lemma {:induction false} SplitSpaced(fs: seq<Block>, i: nat, n: nat, lo: nat, hi: nat)
    requires Spaced(fs, lo, hi) && i < |fs| && 0 < n <= fs[i].size
    ensures Spaced(Split(fs, i, n), lo, hi)
    decreases i
  {
    if i == 0 {
      SplitFirstSpaced(fs, n, lo, hi);
    } else {
      SplitSpaced(fs[1..], i - 1, n, fs[0].End() + 1, hi);
      SplitBehind(fs, i, n);
    }
  }

  lemma {:induction false} SplitCovers(fs: seq<Block>, i: nat, n: nat, lo: nat, hi: nat, x: nat)
    requires Spaced(fs, lo, hi) && i < |fs| && 0 < n <= fs[i].size
    ensures Covers(Split(fs, i, n), x) <==> Covers(fs, x) && !Block(fs[i].begin, n).Holds(x)
    decreases i
  {
    var rest := Block(fs[i].begin + n, fs[i].size - n);
    if i == 0 {
      if Covers(fs[1..], x) {
        CoversInRange(fs[1..], fs[0].End() + 1, hi, x);
      }
      if rest.size == 0 {
        assert Split(fs, 0, n) == fs[1..];
      } else {
        assert Split(fs, 0, n) == [rest] + fs[1..];
      }
    } else {
      SplitCovers(fs[1..], i - 1, n, fs[0].End() + 1, hi, x);
      assert Split(fs, i, n) == [fs[0]] + Split(fs[1..], i - 1, n);
      Behind(fs, lo, hi, i);
    }
  }

  lemma {:induction false} Behind(fs: seq<Block>, lo: nat, hi: nat, i: nat)
    requires Spaced(fs, lo, hi) && 0 < i < |fs|
    ensures fs[0].End() < fs[i].begin
    decreases i
  {
    if i > 1 {
      Behind(fs[1..], fs[0].End() + 1, hi, i - 1);
    }
  }

  /** No byte of `b` is covered. */
  ghost predicate Uncovered(fs: seq<Block>, b: Block) {
    forall x :: b.Holds(x) ==> !Covers(fs, x)
  }

  lemma {:induction false} InBounds(fs: seq<Block>, i: nat, lo: nat, hi: nat)
    requires Spaced(fs, lo, hi) && i < |fs|
    ensures lo <= fs[i].begin && fs[i].End() <= hi
    ensures fs[i].size > 0 || fs[i].begin == hi
    decreases i
  {
    if i > 0 {
      InBounds(fs[1..], i - 1, fs[0].End() + 1, hi);
    }
  }

  /** Joining a block in between keeps the list spaced. */
  lemma {:induction false} JoinSpaced(left: seq<Block>, b: Block, right: seq<Block>, lo: nat, hi: nat)
    requires Spaced(left, lo, hi) && Spaced(right, Next(left, lo), hi) && b.size > 0
    requires lo <= b.begin && b.End() <= hi
    requires left != [] ==> left[|left| - 1].End() <= b.begin
    requires right != [] ==> b.End() <= right[0].begin
    ensures Spaced(Join(left, b, right), lo, hi)
  {
    AbsorbSpaced(b, right, Next(left, lo), hi);
    var c, r := Absorb(b, right).0, Absorb(b, right).1;
    if left != [] && left[|left| - 1].End() == c.begin {
      MergeSpaced(left, c, r, lo, hi);
    } else {
      PlaceSpaced(left, c, r, lo, hi);
    }
  }

  /** A block that starts where the last one ends. */
  lemma {:induction false} MergeSpaced(left: seq<Block>, c: Block, r: seq<Block>, lo: nat, hi: nat)
    requires left != [] && Spaced(left, lo, hi) && Spaced(r, c.End() + 1, hi)
    requires left[|left| - 1].End() == c.begin && c.size > 0 && c.End() <= hi
    ensures var init, last := left[..|left| - 1], left[|left| - 1];
            Spaced(init + [Block(last.begin, last.size + c.size)] + r, lo, hi)
  {
    var init, last := left[..|left| - 1], left[|left| - 1];
    var merged := Block(last.begin, last.size + c.size);
    assert left == init + [last];
    SpacedAppend(init, [last], lo, hi);
    SpacedCons(merged, r, Next(init, lo), hi);
    SpacedAppend(init, [merged] + r, lo, hi);
    assert init + [merged] + r == init + ([merged] + r);
  }

  /** A block that starts behind the last one. */
  lemma {:induction false} PlaceSpaced(left: seq<Block>, c: Block, r: seq<Block>, lo: nat, hi: nat)
    requires Spaced(left, lo, hi) && Spaced(r, c.End() + 1, hi) && lo <= c.begin && c.size > 0 && c.End() <= hi
    requires left != [] ==> left[|left| - 1].End() < c.begin
    ensures Spaced(left + [c] + r, lo, hi)
  {
    SpacedCons(c, r, Next(left, lo), hi);
    SpacedAppend(left, [c] + r, lo, hi);
    assert left + [c] + r == left + ([c] + r);
  }

  lemma {:induction false} AbsorbSpaced(b: Block, right: seq<Block>, lo: nat, hi: nat)
    requires Spaced(right, lo, hi) && b.End() <= hi && (right != [] ==> b.End() <= right[0].begin)
    ensures var c, r := Absorb(b, right).0, Absorb(b, right).1;
            c.begin == b.begin && c.size >= b.size && c.End() <= hi && Spaced(r, c.End() + 1, hi)
  {
    if right != [] && b.End() != right[0].begin {
      SpacedFrom(right, lo, b.End() + 1, hi);
    }
  }

  lemma {:induction false} SpacedCons(b: Block, r: seq<Block>, lo: nat, hi: nat)
    requires lo <= b.begin && b.End() <= hi && b.size > 0 && Spaced(r, b.End() + 1, hi)
    ensures Spaced([b] + r, lo, hi)
  {
    assert ([b] + r)[1..] == r;
  }

  lemma {:induction false} JoinCovers(left: seq<Block>, b: Block, right: seq<Block>, x: nat)
    ensures Covers(Join(left, b, right), x) <==> Covers(left, x) || b.Holds(x) || Covers(right, x)
  {
    var (c, r) := Absorb(b, right);
    assert c.Holds(x) || Covers(r, x) <==> b.Holds(x) || Covers(right, x);
    assert Covers([c] + r, x) <==> c.Holds(x) || Covers(r, x) by { assert ([c] + r)[1..] == r; }
    if left != [] && left[|left| - 1].End() == c.begin {
      var init, last := left[..|left| - 1], left[|left| - 1];
      var merged := Block(last.begin, last.size + c.size);
      assert left == init + [last];
      CoversAppend(init, [last], x);
      CoversAppend(init, [merged] + r, x);
      assert ([merged] + r)[1..] == r;
      assert Join(left, b, right) == init + ([merged] + r);
    } else {
      CoversAppend(left, [c] + r, x);
      assert Join(left, b, right) == left + ([c] + r);
    }
  }

  /** Giving back an uncovered block keeps the list spaced and covers exactly its bytes in addition. */
  lemma {:induction false} ReleaseKeeps(fs: seq<Block>, b: Block, lo: nat, hi: nat)
    requires Spaced(fs, lo, hi) && Uncovered(fs, b) && b.size > 0 && lo <= b.begin && b.End() <= hi
    ensures Spaced(Release(fs, b), lo, hi)
    ensures forall x :: Covers(Release(fs, b), x) <==> Covers(fs, x) || b.Holds(x)
  {
    var i := Nearest(fs, b);
    var left, right := fs[..i], fs[i..];
    assert fs == left + right;
    SpacedAppend(left, right, lo, hi);
    LeftIsBefore(fs, b, lo, hi);
    JoinSpaced(left, b, right, lo, hi);
    forall x ensures Covers(Release(fs, b), x) <==> Covers(fs, x) || b.Holds(x) {
      JoinCovers(left, b, right, x);
      CoversAppend(left, right, x);
    }
  }

  /** The blocks before the insertion point end at or before the block. */
  lemma {:induction false} LeftIsBefore(fs: seq<Block>, b: Block, lo: nat, hi: nat)
    requires Spaced(fs, lo, hi) && Uncovered(fs, b) && b.size > 0 && b.End() <= hi
    ensures var i := Nearest(fs, b); i > 0 ==> fs[i - 1].End() <= b.begin
  {
    var i := Nearest(fs, b);
    if i > 0 {
      var f := fs[i - 1];
      InBounds(fs, i - 1, lo, hi);
      if b.begin < f.End() {
        var x := if b.begin < f.begin then f.begin else b.begin;
        assert b.Holds(x) && f.Holds(x);
        BlockIsCovered(fs, i - 1, x);
        assert false;
      }
    }
  }

  /** The list without an empty last block. */
  function Trim(fs: seq<Block>): seq<Block> {
    if fs != [] && fs[|fs| - 1].size == 0 then fs[..|fs| - 1] else fs
  }

  ghost predicate SameCover(a: seq<Block>, b: seq<Block>) {
    forall x :: Covers(a, x) <==> Covers(b, x)
  }

  lemma {:induction false} TrimCons(fs: seq<Block>)
    requires |fs| > 1
    ensures Trim(fs) == [fs[0]] + Trim(fs[1..])
  {
  }

  /** A list that covers nothing is empty but for an empty last block. */
  lemma {:induction false} NothingCovered(fs: seq<Block>, lo: nat, hi: nat)
    requires Spaced(fs, lo, hi) && forall x :: !Covers(fs, x)
    ensures Trim(fs) == []
  {
    if fs != [] {
      assert !Covers(fs, fs[0].begin);
      if |fs| > 1 {
        InBounds(fs, 1, lo, hi);
        assert false;
      }
    }
  }

  /** The first blocks of two lists that cover the same bytes are the same. */
  lemma {:induction false} SameFirst(a: seq<Block>, b: seq<Block>, lo: nat, hi: nat)
    requires Spaced(a, lo, hi) && Spaced(b, lo, hi) && SameCover(a, b)
    requires a != [] && b != [] && a[0].size > 0 && b[0].size > 0
    ensures a[0] == b[0]
  {
    StartsAtFirst(a, b, lo, hi);
    StartsAtFirst(b, a, lo, hi);
    EndsAtFirst(a, b, lo, hi);
    EndsAtFirst(b, a, lo, hi);
  }

  lemma {:induction false} StartsAtFirst(a: seq<Block>, b: seq<Block>, lo: nat, hi: nat)
    requires Spaced(b, lo, hi) && SameCover(a, b) && a != [] && a[0].size > 0 && b != []
    ensures b[0].begin <= a[0].begin
  {
    var x := a[0].begin;
    assert Covers(a, x);
    if !b[0].Holds(x) {
      CoversInRange(b[1..], b[0].End() + 1, hi, x);
    }
  }

  lemma {:induction false} EndsAtFirst(a: seq<Block>, b: seq<Block>, lo: nat, hi: nat)
    requires Spaced(a, lo, hi) && SameCover(a, b) && a != [] && b != [] && a[0].begin == b[0].begin
    ensures b[0].End() <= a[0].End()
  {
    var x := a[0].End();
    if x < b[0].End() {
      assert Covers(b, x) && Covers(a, x);
      CoversInRange(a[1..], x + 1, hi, x);
      assert false;
    }
  }

  lemma {:induction false} SameRest(a: seq<Block>, b: seq<Block>, lo: nat, hi: nat)
    requires Spaced(a, lo, hi) && Spaced(b, lo, hi) && SameCover(a, b) && a != [] && b != [] && a[0] == b[0]
    ensures SameCover(a[1..], b[1..])
  {
    forall x ensures Covers(a[1..], x) <==> Covers(b[1..], x) {
      assert Covers(a, x) <==> Covers(b, x);
      if Covers(a[1..], x) {
        CoversInRange(a[1..], a[0].End() + 1, hi, x);
      }
      if Covers(b[1..], x) {
        CoversInRange(b[1..], b[0].End() + 1, hi, x);
      }
    }
  }

  /** The list is canonical: up to an empty last block it is determined by the bytes it covers. */
  lemma {:induction false} Canonical(a: seq<Block>, b: seq<Block>, lo: nat, hi: nat)
    requires Spaced(a, lo, hi) && Spaced(b, lo, hi) && SameCover(a, b)
    ensures Trim(a) == Trim(b)
    decreases |a|
  {
    if a == [] || a[0].size == 0 {
      EmptyFirst(a, lo, hi);
      NothingCovered(b, lo, hi);
    } else if b == [] || b[0].size == 0 {
      EmptyFirst(b, lo, hi);
      assert Covers(a, a[0].begin);
    } else {
      SameFirst(a, b, lo, hi);
      SameRest(a, b, lo, hi);
      Canonical(a[1..], b[1..], a[0].End() + 1, hi);
      TrimFirst(a);
      TrimFirst(b);
    }
  }

  lemma {:induction false} TrimFirst(fs: seq<Block>)
    requires fs != [] && fs[0].size > 0
    ensures Trim(fs) == [fs[0]] + Trim(fs[1..])
  {
    if |fs| > 1 {
      TrimCons(fs);
    }
  }

  lemma {:induction false} EmptyFirst(fs: seq<Block>, lo: nat, hi: nat)
    requires Spaced(fs, lo, hi) && (fs == [] || fs[0].size == 0)
    ensures Trim(fs) == [] && forall x :: !Covers(fs, x)
  {
    if fs != [] {
      NoneBehind(fs[1..], fs[0].End() + 1, hi);
    }
  }

  lemma {:induction false} NoneBehind(fs: seq<Block>, lo: nat, hi: nat)
    requires Spaced(fs, lo, hi) && lo > hi
    ensures fs == []
  {
  }

  lemma {:induction false} NearestIs(fs: seq<Block>, b: Block, i: nat)
    requires i <= |fs| && (forall j :: 0 <= j < i ==> fs[j].begin < b.End())
    requires i < |fs| ==> b.End() <= fs[i].begin
    ensures Nearest(fs, b) == i
  {
    var k := Nearest(fs, b);
  }

  lemma {:induction false} InOrder(fs: seq<Block>, i: nat, j: nat, lo: nat, hi: nat)
    requires Spaced(fs, lo, hi) && i < j < |fs|
    ensures fs[i].End() < fs[j].begin
    decreases i
  {
    if i == 0 {
      Behind(fs, lo, hi, j);
    } else {
      InOrder(fs[1..], i - 1, j - 1, fs[0].End() + 1, hi);
    }
  }

  /** Joining the front of block `f` back in restores it. */
  lemma {:induction false} JoinFront(left: seq<Block>, f: Block, n: nat, right: seq<Block>)
    requires 0 < n <= f.size
    requires left != [] ==> left[|left| - 1].End() < f.begin
    requires right != [] ==> f.End() < right[0].begin
    ensures Join(left, Block(f.begin, n), Remnant(f, n) + right) == left + [f] + right
  {
    if n == f.size {
      assert [] + right == right;
    } else {
      assert (Remnant(f, n) + right)[1..] == right;
    }
  }

  lemma {:induction false} SplitParts(fs: seq<Block>, i: nat, n: nat)
    requires i < |fs| && n <= fs[i].size
    ensures Split(fs, i, n) == fs[..i] + (Remnant(fs[i], n) + fs[i + 1..])
    ensures Split(fs, i, n)[..i] == fs[..i] && Split(fs, i, n)[i..] == Remnant(fs[i], n) + fs[i + 1..]
  {
    var s := fs[..i] + (Remnant(fs[i], n) + fs[i + 1..]);
    assert Split(fs, i, n) == s;
  }

  lemma {:induction false} NearestInSplit(fs: seq<Block>, i: nat, n: nat, lo: nat, hi: nat)
    requires Spaced(fs, lo, hi) && i < |fs| && 0 < n <= fs[i].size
    ensures Nearest(Split(fs, i, n), Block(fs[i].begin, n)) == i
  {
    var s, tail := Split(fs, i, n), Remnant(fs[i], n) + fs[i + 1..];
    SplitParts(fs, i, n);
    forall j | 0 <= j < i ensures s[j].begin < fs[i].begin + n {
      assert s[j] == fs[j];
      InOrder(fs, j, i, lo, hi);
    }
    if i < |s| {
      assert s[i] == tail[0];
      if n == fs[i].size {
        assert tail[0] == fs[i + 1];
        InOrder(fs, i, i + 1, lo, hi);
      }
    }
    NearestIs(s, Block(fs[i].begin, n), i);
  }

  /** Giving back what was just split off restores the list exactly. */
  lemma {:induction false} SplitThenRelease(fs: seq<Block>, i: nat, n: nat, lo: nat, hi: nat)
    requires Spaced(fs, lo, hi) && i < |fs| && 0 < n <= fs[i].size
    ensures Release(Split(fs, i, n), Block(fs[i].begin, n)) == fs
  {
    NearestInSplit(fs, i, n, lo, hi);
    SplitParts(fs, i, n);
    if i > 0 {
      InOrder(fs, i - 1, i, lo, hi);
    }
    if i + 1 < |fs| {
      InOrder(fs, i, i + 1, lo, hi);
    }
    JoinFront(fs[..i], fs[i], n, fs[i + 1..]);
    Reassemble(fs, i);
  }

  lemma {:induction false} Reassemble(fs: seq<Block>, i: nat)
    requires i < |fs|
    ensures fs == fs[..i] + [fs[i]] + fs[i + 1..]
  {
  }
}
