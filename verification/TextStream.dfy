/** An input file stream over text: the part of `std::ifstream` that the external sort relies on. */
module TextStream {
  import opened Decimal
  import opened PairText

  function SkipBlanks(s: string, p: nat): (q: nat)
    requires p <= |s|
    ensures p <= q <= |s|
    ensures forall i :: p <= i < q ==> IsBlank(s[i])
    ensures q < |s| ==> !IsBlank(s[q])
    decreases |s| - p
  {
    if p < |s| && IsBlank(s[p]) then SkipBlanks(s, p + 1) else p
  }

  function SkipDigits(s: string, p: nat): (q: nat)
    requires p <= |s|
    ensures p <= q <= |s|
    ensures forall i :: p <= i < q ==> IsDigit(s[i])
    ensures q < |s| ==> !IsDigit(s[q])
    decreases |s| - p
  {
    if p < |s| && IsDigit(s[p]) then SkipDigits(s, p + 1) else p
  }

  /** A number may have a sign in front, even an unsigned one. */
  function SkipSign(s: string, p: nat): (q: nat)
    requires p <= |s|
    ensures p <= q <= |s|
  {
    if p < |s| && (s[p] == '+' || s[p] == '-') then p + 1 else p
  }

  /** A negative number wraps around in an unsigned variable. */
  function WithSign(negative: bool, n: u64): u64 {
    if negative && n > 0 then U64_LIMIT - n else n
  }

  /** The text `t` stands at position `p` of `s`. */
  ghost predicate At(s: string, p: nat, t: string) {
    p + |t| <= |s| && s[p..p + |t|] == t
  }

  lemma {:induction false} AtConcat(s: string, p: nat, a: string, b: string)
    requires At(s, p, a + b)
    ensures At(s, p, a) && At(s, p + |a|, b)
  {
    var whole := s[p..p + |a + b|];
    assert s[p..p + |a|] == whole[..|a|] == a;
    assert s[p + |a|..p + |a| + |b|] == whole[|a|..] == b;
  }

  /** From position `p` on, `s` holds the pairs `ps`, after one blank when `lead` is set. */
  ghost predicate Ahead(s: string, p: nat, lead: bool, ps: seq<Pair>) {
    && (lead ==> p < |s| && s[p] == ' ')
    && At(s, if lead then p + 1 else p, Render(ps))
  }

  /** What is left in the variable and the stream after an extraction. */
  datatype Extracted = Extracted(v: u64, pos: nat, eof: bool, fail: bool)

  /**
   Extraction of a number at `p`: when only blanks are left the variable keeps its value `cur`, a missing number
   zeroes it, an overflow clamps it, and a minus sign negates modulo 2^64.
   */
  function Extract(s: string, p: nat, cur: u64): (x: Extracted)
    requires p <= |s|
    ensures p <= x.pos <= |s| && x.eof == (x.pos == |s|)
  {
    var b := SkipBlanks(s, p);
    var g := SkipSign(s, b);
    var q := SkipDigits(s, g);
    if b == |s| then Extracted(cur, b, true, true)
    else if g == q then Extracted(0, q, q == |s|, true)
    else if Value(s[g..q]) >= U64_LIMIT then Extracted(U64_MAX, q, q == |s|, true)
    else Extracted(WithSign(s[b] == '-', Value(s[g..q])), q, q == |s|, false)
  }

  /** A stream with its position and its `eofbit` and `failbit`. */
  class InStream {
    const data: string
    var pos: nat
    var eof: bool
    var fail: bool

    ghost predicate Valid()
      reads this
    {
      pos <= |data|
    }

    ghost predicate Good()
      reads this
    {
      Valid() && !eof && !fail
    }

    constructor (data: string)
      ensures this.data == data && Good() && pos == 0
    {
      this.data := data;
      pos, eof, fail := 0, false, false;
    }

    /** `in >> v` for an unsigned 64-bit `v` whose current value is `cur`; a stream that is not good fails and leaves
        `v` alone. */
    method ReadU64(cur: u64) returns (v: u64)
      requires Valid()
      modifies this
      ensures Valid()
      ensures old(eof || fail) ==> v == cur && fail && pos == old(pos) && eof == old(eof)
      ensures !old(eof || fail) ==> Extracted(v, pos, eof, fail) == Extract(data, old(pos), cur)
    {
      v := cur;
      if eof || fail {
        fail := true;
        return;
      }
      pos := SkipBlanks(data, pos);
      if pos == |data| {
        eof, fail := true, true;
        return;
      }
      var negative, g := data[pos] == '-', SkipSign(data, pos);
      var q := SkipDigits(data, g);
      var n := Value(data[g..q]);
      if g == q {
        fail, v := true, 0;
      } else if n >= U64_LIMIT {
        fail, v := true, U64_MAX;
      } else {
        v := WithSign(negative, n);
      }
      pos, eof := q, q == |data|;
    }

    /** `tellg`: -1 unless the stream is good; asking at the end of the file sets `failbit`. */
    method Tellg() returns (p: int)
      modifies this
      ensures pos == old(pos) && eof == old(eof) && fail == old(eof || fail)
      ensures p == if fail then -1 else pos
    {
      if eof {
        fail := true;
      }
      p := if fail then -1 else pos;
    }

    /** `seekg(p, beg)`: clears `eofbit`, then moves unless `failbit` is set. */
    method Seekg(p: nat)
      requires Valid() && p <= |data|
      modifies this
      ensures Valid() && !eof && fail == old(fail)
      ensures pos == if fail then old(pos) else p
    {
      eof := false;
      if !fail {
        pos := p;
      }
    }

    /** `close` followed by `open` on the same file. */
    method Reopen()
      modifies this
      ensures Good() && pos == 0
    {
      pos, eof, fail := 0, false, false;
    }

    /** `in >> w >> d`: with rendered pairs ahead, at most one blank away, the first of them is read
        and the stream stops at the blank that ends it; the stream stays good. With nothing but that
        blank left in the file, or once it has failed, the stream fails and the variables stay. */
    method ReadPair(w: u64, d: u64, ghost lead: bool, ghost ps: seq<Pair>)
      returns (ok: bool, w': u64, d': u64)
      requires Valid() && (fail ==> ps == [])
      requires !fail ==> Good() && Ahead(data, pos, lead, ps)
      requires !fail && ps == [] ==> pos + (if lead then 1 else 0) == |data|
      modifies this
      ensures Valid() && ok == (ps != [])
      ensures !ok ==> fail && w' == w && d' == d
      ensures ok ==> Good() && Pair(w', d') == ps[0]
      ensures ok ==> pos == old(pos) + (if lead then 1 else 0) + PairSize(ps[0]) - 1
      ensures ok ==> Ahead(data, pos, true, ps[1..])
    {
      if ps != [] {
        ghost var e1, e2 := PairAhead(data, pos, lead, ps);
        ScannedIsExtracted(data, pos, w, ps[0].word, e1);
        ScannedIsExtracted(data, e1, d, ps[0].doc, e2);
      } else if !fail {
        EndAhead(data, pos, lead, w);
      }
      w' := ReadU64(w);
      d' := ReadU64(d);
      ok := !fail;
    }
  }

  lemma {:induction false} EndAhead(s: string, p: nat, lead: bool, cur: u64)
    requires p + (if lead then 1 else 0) == |s| && (lead ==> s[p] == ' ')
    ensures p <= |s| && Extract(s, p, cur) == Extracted(cur, |s|, true, true)
  {
  }

  lemma {:induction false} Stretches(s: string, p: nat, b: nat, g: nat, q: nat)
    requires p <= b <= g <= q <= |s|
    requires (forall i :: p <= i < b ==> IsBlank(s[i])) && (b < |s| ==> !IsBlank(s[b]))
    requires (forall i :: g <= i < q ==> IsDigit(s[i])) && (q < |s| ==> !IsDigit(s[q]))
    ensures SkipBlanks(s, p) == b && SkipDigits(s, g) == q
  {
  }

  /** The sign in front of a number, or nothing. */
  predicate IsSign(t: string) {
    t == "" || t == "+" || t == "-"
  }

  /**
   Blanks, a sign or none, and digits: the number is stored, one with a minus sign as its complement to 2^64; one
   that does not fit fails and leaves 2^64 - 1. The stream stops behind the last digit.
   */
  lemma {:induction false} NumberExtracted(s: string, p: nat, b: nat, g: nat, q: nat, cur: u64)
    requires p <= b <= g < q <= |s| && IsSign(s[b..g])
    requires forall i :: p <= i < b ==> IsBlank(s[i])
    requires (forall i :: g <= i < q ==> IsDigit(s[i])) && (q < |s| ==> !IsDigit(s[q]))
    ensures var x, n := Extract(s, p, cur), Value(s[g..q]);
            && x.pos == q && x.eof == (q == |s|) && x.fail == (n > U64_MAX)
            && (x.fail ==> x.v == U64_MAX)
            && (!x.fail ==> if s[b..g] == "-" then (x.v + n) % U64_LIMIT == 0 else x.v == n)
  {
    if b < g {
      assert s[b..g] == [s[b]];
    }
    assert s[b] == '+' || s[b] == '-' || IsDigit(s[b]);
    Stretches(s, p, b, g, q);
  }

  /** Without a digit where a number should start, 0 is stored and the stream fails; with nothing but blanks left,
      the variable is kept. */
  lemma {:induction false} NoNumberExtracted(s: string, p: nat, b: nat, g: nat, cur: u64)
    requires p <= b <= g <= |s| && IsSign(s[b..g])
    requires (forall i :: p <= i < b ==> IsBlank(s[i])) && (b < |s| ==> !IsBlank(s[b]))
    requires g < |s| ==> !IsDigit(s[g]) && (g == b ==> s[g] != '+' && s[g] != '-')
    ensures Extract(s, p, cur) == Extracted(if b == |s| then cur else 0, g, g == |s|, true)
  {
    if b < g {
      assert s[b..g] == [s[b]];
    }
    Stretches(s, p, b, g, g);
  }

  /** What scanning a number that does not touch the end of the text gives: its value and its end. */
  datatype Scanned = Nothing | Number(n: nat, end: nat)

  function Scan(s: string, p: nat): Scanned
    requires p <= |s|
  {
    var q := SkipBlanks(s, p);
    var e := SkipDigits(s, q);
    if q < e < |s| then
      assert AllDigits(s[q..e]);
      Number(Value(s[q..e]), e)
    else Nothing
  }

  /** A number without a sign that fits is extracted as it stands. */
  lemma {:induction false} ScannedIsExtracted(s: string, p: nat, cur: u64, n: u64, e: nat)
    requires p <= |s| && Scan(s, p) == Number(n, e)
    ensures Extract(s, p, cur) == Extracted(n, e, false, false) && e < |s|
  {
    assert IsDigit(s[SkipBlanks(s, p)]);
  }

  /** A number rendered at `p`, after a blank or not, is scanned up to its end. */
  lemma {:induction false} NumberAhead(s: string, p: nat, q: nat, n: nat)
    requires p <= q <= p + 1 && At(s, q, Show(n))
    requires p < q ==> s[p] == ' '
    requires q + |Show(n)| < |s| && s[q + |Show(n)|] == ' '
    ensures Scan(s, p) == Number(n, q + |Show(n)|)
  {
    var e := q + |Show(n)|;
    ValueOfShow(n);
    forall i | q <= i < e ensures IsDigit(s[i]) {
      assert s[i] == s[q..e][i - q];
    }
    assert SkipBlanks(s, p) == q;
    assert SkipDigits(s, q) == e;
  }

  /** The positions `ReadPair` goes through. */
  lemma {:induction false} PairAhead(s: string, p: nat, lead: bool, ps: seq<Pair>) returns (e1: nat, e2: nat)
    requires ps != [] && Ahead(s, p, lead, ps)
    ensures e2 == (if lead then p + 1 else p) + PairSize(ps[0]) - 1
    ensures Scan(s, p) == Number(ps[0].word, e1)
    ensures e1 <= |s| && Scan(s, e1) == Number(ps[0].doc, e2)
    ensures Ahead(s, e2, true, ps[1..])
  {
    e1, e2 := PairAheadAt(s, p, if lead then p + 1 else p, ps[0].word, ps[0].doc, Render(ps[1..]));
  }

  lemma {:induction false} PairAheadAt(s: string, p: nat, q: nat, w: nat, d: nat, rest: string) returns (e1: nat,
                                       e2: nat)
    requires p <= q <= p + 1 && (p < q ==> p < |s| && s[p] == ' ')
    requires At(s, q, (Show(w) + " " + Show(d) + " ") + rest)
    ensures e2 == q + |Show(w)| + 1 + |Show(d)|
    ensures Scan(s, p) == Number(w, e1)
    ensures e1 <= |s| && Scan(s, e1) == Number(d, e2)
    ensures e2 < |s| && s[e2] == ' ' && At(s, e2 + 1, rest)
  {
    PairLayout(s, q, Show(w), Show(d), rest);
    e1, e2 := TwoNumbersAhead(s, p, q, w, d);
  }

  lemma {:induction false} TwoNumbersAhead(s: string, p: nat, q: nat, w: nat, d: nat) returns (e1: nat, e2: nat)
    requires p <= q <= p + 1 && (p < q ==> p < |s| && s[p] == ' ')
    requires At(s, q, Show(w)) && At(s, q + |Show(w)| + 1, Show(d))
    requires q + |Show(w)| + 1 + |Show(d)| < |s|
    requires s[q + |Show(w)|] == ' ' && s[q + |Show(w)| + 1 + |Show(d)|] == ' '
    ensures e1 == q + |Show(w)| && e2 == e1 + 1 + |Show(d)|
    ensures Scan(s, p) == Number(w, e1) && Scan(s, e1) == Number(d, e2)
  {
    e1 := q + |Show(w)|;
    e2 := e1 + 1 + |Show(d)|;
    NumberAhead(s, p, q, w);
    NumberAhead(s, e1, e1 + 1, d);
  }

  /** The pieces of a rendered pair. */
  lemma {:induction false} PairLayout(s: string, q: nat, w: string, d: string, rest: string)
    requires At(s, q, (w + " " + d + " ") + rest)
    ensures var e1 := q + |w|; var e2 := e1 + 1 + |d|;
            && e2 < |s| && s[e1] == ' ' && s[e2] == ' '
            && At(s, q, w) && At(s, e1 + 1, d) && At(s, e2 + 1, rest)
  {
    AtConcat(s, q, w + " " + d + " ", rest);
    AtConcat(s, q, w + " " + d, " ");
    AtConcat(s, q, w + " ", d);
    AtConcat(s, q, w, " ");
    assert s[q + |w|..q + |w| + 1][0] == ' ';
    assert s[q + |w + " " + d|..q + |w + " " + d| + 1][0] == ' ';
  }
}
