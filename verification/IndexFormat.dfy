/** The reverse index file: a header of (word, offset) entries, a zero entry, and the posting lists. */
module IndexFormat {
  import opened Decimal
  import opened Bytes
  import opened DocStream

  datatype Entry = Entry(word: u64, docs: seq<u64>)

  function EntryBytes(e: Entry): (bs: seq<byte>) {
    Encode(|e.docs| % 0x1_0000_0000, 4) + EncodeWords(e.docs)
  }

  function Postings(table: seq<Entry>): seq<byte> {
    if table == [] then [] else EntryBytes(table[0]) + Postings(table[1..])
  }

  /** The header entries when the first posting list is at `offset`; offsets are 64-bit. */
  function Header(table: seq<Entry>, offset: nat): seq<byte> {
    if table == [] then []
    else
      Encode(table[0].word, 8) + Encode(offset % U64_LIMIT, 8)
      + Header(table[1..], offset + 4 + 8 * |table[0].docs|)
  }

  const TERMINATOR: seq<byte> := Encode(0, 8) + Encode(0, 8)

  function IndexBytes(table: seq<Entry>): seq<byte> {
    Header(table, 16 * (|table| + 1)) + TERMINATOR + Postings(table)
  }

  /** The position of posting list `k` when the first one is at `offset`. */
  function ListOffset(table: seq<Entry>, offset: nat, k: nat): nat
    requires k <= |table|
  {
    if k == 0 then offset else ListOffset(table[1..], offset + 4 + 8 * |table[0].docs|, k - 1)
  }

  lemma {:induction false} EncodeWordsLength(ws: seq<u64>)
    ensures |EncodeWords(ws)| == 8 * |ws|
  {
    if ws != [] {
      EncodeWordsLength(ws[1..]);
    }
  }

  lemma {:induction false} HeaderLength(table: seq<Entry>, offset: nat)
    ensures |Header(table, offset)| == 16 * |table|
  {
    if table != [] {
      HeaderLength(table[1..], offset + 4 + 8 * |table[0].docs|);
    }
  }

  lemma {:induction false} BytesAtShift(a: seq<byte>, bs: seq<byte>, p: nat, t: seq<byte>)
    requires BytesAt(bs, p, t)
    ensures BytesAt(a + bs, |a| + p, t)
  {
    assert (a + bs)[|a| + p..|a| + p + |t|] == bs[p..p + |t|];
  }

  lemma {:induction false} BytesAtPrefix(a: seq<byte>, b: seq<byte>, p: nat, t: seq<byte>)
    requires BytesAt(a, p, t)
    ensures BytesAt(a + b, p, t)
  {
    assert (a + b)[p..p + |t|] == a[p..p + |t|];
  }

  /** Header entry `k` holds the word and the 64-bit offset of list `k`. */
  lemma {:induction false} HeaderEntry(table: seq<Entry>, offset: nat, k: nat)
    requires k < |table|
    ensures BytesAt(Header(table, offset), 16 * k, Encode(table[k].word, 8))
    ensures BytesAt(Header(table, offset), 16 * k + 8, Encode(ListOffset(table, offset, k) % U64_LIMIT, 8))
  {
    var first, rest := Encode(table[0].word, 8) + Encode(offset % U64_LIMIT, 8), offset + 4 + 8 * |table[0].docs|;
    if k == 0 {
      assert BytesAt(first, 0, Encode(table[0].word, 8));
      assert BytesAt(first, 8, Encode(offset % U64_LIMIT, 8));
      BytesAtPrefix(first, Header(table[1..], rest), 0, Encode(table[0].word, 8));
      BytesAtPrefix(first, Header(table[1..], rest), 8, Encode(offset % U64_LIMIT, 8));
    } else {
      HeaderEntry(table[1..], rest, k - 1);
      BytesAtShift(first, Header(table[1..], rest), 16 * (k - 1), Encode(table[k].word, 8));
      BytesAtShift(first, Header(table[1..], rest), 16 * (k - 1) + 8,
                   Encode(ListOffset(table, offset, k) % U64_LIMIT, 8));
    }
  }

  lemma {:induction false} PostingEntry(table: seq<Entry>, offset: nat, k: nat)
    requires k < |table|
    ensures ListOffset(table, offset, k) >= offset
    ensures BytesAt(Postings(table), ListOffset(table, offset, k) - offset, EntryBytes(table[k]))
  {
    if k == 0 {
      assert BytesAt(EntryBytes(table[0]), 0, EntryBytes(table[0]));
      BytesAtPrefix(EntryBytes(table[0]), Postings(table[1..]), 0, EntryBytes(table[0]));
    } else {
      var rest := offset + 4 + 8 * |table[0].docs|;
      EncodeWordsLength(table[0].docs);
      PostingEntry(table[1..], rest, k - 1);
      BytesAtShift(EntryBytes(table[0]), Postings(table[1..]), ListOffset(table[1..], rest, k - 1) - rest,
                   EntryBytes(table[k]));
    }
  }

  lemma {:induction false} HeaderEntryAt(table: seq<Entry>, k: nat)
    requires k < |table|
    ensures BytesAt(IndexBytes(table), 16 * k, Encode(table[k].word, 8))
    ensures BytesAt(IndexBytes(table), 16 * k + 8,
                    Encode(ListOffset(table, 16 * (|table| + 1), k) % U64_LIMIT, 8))
  {
    var offset := 16 * (|table| + 1);
    HeaderEntry(table, offset, k);
    InHeader(Header(table, offset), Postings(table), 16 * k, Encode(table[k].word, 8));
    InHeader(Header(table, offset), Postings(table), 16 * k + 8, Encode(ListOffset(table, offset, k) % U64_LIMIT, 8));
  }

  lemma {:induction false} PostingAt(table: seq<Entry>, k: nat)
    requires k < |table|
    ensures BytesAt(IndexBytes(table), ListOffset(table, 16 * (|table| + 1), k), EntryBytes(table[k]))
  {
    var offset := 16 * (|table| + 1);
    var front, at := Header(table, offset) + TERMINATOR, ListOffset(table, offset, k);
    HeaderLength(table, offset);
    PostingEntry(table, offset, k);
    BytesAtShift(front, Postings(table), at - offset, EntryBytes(table[k]));
    assert |front| + (at - offset) == at;
  }

  lemma {:induction false} BytesWithin(data: seq<byte>, p: nat, a: seq<byte>, q: nat, t: seq<byte>)
    requires BytesAt(data, p, a) && BytesAt(a, q, t)
    ensures BytesAt(data, p + q, t)
  {
    forall i | 0 <= i < |t| ensures data[p + q + i] == t[i] {
      assert data[p..p + |a|][q + i] == a[q + i] && a[q..q + |t|][i] == t[i];
    }
  }

  lemma {:induction false} WordAt(ws: seq<u64>, j: nat)
    requires j < |ws|
    ensures BytesAt(EncodeWords(ws), 8 * j, Encode(ws[j], 8))
    decreases j
  {
    if j == 0 {
      assert BytesAt(Encode(ws[0], 8), 0, Encode(ws[0], 8));
      BytesAtPrefix(Encode(ws[0], 8), EncodeWords(ws[1..]), 0, Encode(ws[0], 8));
    } else {
      WordAt(ws[1..], j - 1);
      BytesAtShift(Encode(ws[0], 8), EncodeWords(ws[1..]), 8 * (j - 1), Encode(ws[j], 8));
    }
  }

  /** A posting list at `p`: the 32-bit count, then the documents, 8 bytes each. */
  ghost predicate HasList(file: seq<byte>, p: nat, docs: seq<u64>) {
    BytesAt(file, p, Encode(|docs| % 0x1_0000_0000, 4))
    && forall j :: 0 <= j < |docs| ==> BytesAt(file, p + 4 + 8 * j, Encode(docs[j], 8))
  }

  lemma {:induction false} ListAt(file: seq<byte>, p: nat, e: Entry)
    requires BytesAt(file, p, EntryBytes(e))
    ensures HasList(file, p, e.docs)
  {
    BytesAtConcat(file, p, Encode(|e.docs| % 0x1_0000_0000, 4), EncodeWords(e.docs));
    forall j | 0 <= j < |e.docs| ensures BytesAt(file, p + 4 + 8 * j, Encode(e.docs[j], 8)) {
      WordAt(e.docs, j);
      BytesWithin(file, p + 4, EncodeWords(e.docs), 8 * j, Encode(e.docs[j], 8));
    }
  }

  /** The first list is right behind the terminator, each other one right behind the one before, and the last one ends
      the file. */
  lemma {:induction false} ListsFollow(table: seq<Entry>, k: nat)
    requires k < |table|
    ensures var first := 16 * (|table| + 1);
            && ListOffset(table, first, 0) == first
            && ListOffset(table, first, k + 1) == ListOffset(table, first, k) + 4 + 8 * |table[k].docs|
            && ListOffset(table, first, |table|) == |IndexBytes(table)|
  {
    NextOffsetIs(table, 16 * (|table| + 1), k);
    LastOffsetIs(table, 16 * (|table| + 1));
    HeaderLength(table, 16 * (|table| + 1));
  }

  lemma {:induction false} NextOffsetIs(table: seq<Entry>, offset: nat, k: nat)
    requires k < |table|
    ensures ListOffset(table, offset, k + 1) == ListOffset(table, offset, k) + 4 + 8 * |table[k].docs|
    decreases k
  {
    if k > 0 {
      NextOffsetIs(table[1..], offset + 4 + 8 * |table[0].docs|, k - 1);
    } else {
      assert ListOffset(table[1..], offset + 4 + 8 * |table[0].docs|, 0) == offset + 4 + 8 * |table[0].docs|;
    }
  }

  lemma {:induction false} LastOffsetIs(table: seq<Entry>, offset: nat)
    ensures ListOffset(table, offset, |table|) == offset + |Postings(table)|
  {
    if table != [] {
      EncodeWordsLength(table[0].docs);
      LastOffsetIs(table[1..], offset + 4 + 8 * |table[0].docs|);
    }
  }

  /** Behind the last header entry there are 16 zero bytes. */
  lemma {:induction false} TerminatorAt(table: seq<Entry>, i: nat)
    requires i < 16
    ensures 16 * |table| + i < |IndexBytes(table)| && IndexBytes(table)[16 * |table| + i] == 0
  {
    HeaderLength(table, 16 * (|table| + 1));
    EncodeByte(0, 8, i % 8);
    assert TERMINATOR[i] == Encode(0, 8)[i % 8];
    assert (Header(table, 16 * (|table| + 1)) + TERMINATOR)[16 * |table| + i] == TERMINATOR[i];
  }

  /** Header entry `k` of `file` holds the word and, modulo 2^64, the position of posting list `k`. */
  ghost predicate Listed(file: seq<byte>, table: seq<Entry>, k: nat)
    requires k < |table|
  {
    var at := ListOffset(table, 16 * (|table| + 1), k);
    && BytesAt(file, 16 * k, Encode(table[k].word, 8))
    && BytesAt(file, 16 * k + 8, Encode(at % U64_LIMIT, 8))
    && HasList(file, at, table[k].docs)
  }

  /** Every offset in the header is exact. */
  lemma {:induction false} OffsetsAreExact(table: seq<Entry>, k: nat)
    requires k < |table|
    ensures Listed(IndexBytes(table), table, k)
  {
    HeaderEntryAt(table, k);
    PostingAt(table, k);
    ListAt(IndexBytes(table), ListOffset(table, 16 * (|table| + 1), k), table[k]);
  }

  lemma {:induction false} InHeader(header: seq<byte>, lists: seq<byte>, p: nat, t: seq<byte>)
    requires BytesAt(header, p, t)
    ensures BytesAt(header + TERMINATOR + lists, p, t)
  {
    BytesAtPrefix(header, TERMINATOR, p, t);
    BytesAtPrefix(header + TERMINATOR, lists, p, t);
  }

  predicate SameShape(a: seq<Entry>, b: seq<Entry>) {
    |a| == |b| && forall i :: 0 <= i < |a| ==> a[i].word == b[i].word && |a[i].docs| == |b[i].docs|
  }

  lemma {:induction false} EncodeWordsInjective(a: seq<u64>, b: seq<u64>)
    requires |a| == |b| && EncodeWords(a) == EncodeWords(b)
    ensures a == b
  {
    if a != [] {
      assert EncodeWords(a)[..8] == Encode(a[0], 8) && EncodeWords(b)[..8] == Encode(b[0], 8);
      assert EncodeWords(a)[8..] == EncodeWords(a[1..]) && EncodeWords(b)[8..] == EncodeWords(b[1..]);
      Widths();
      DecodeOfEncode(a[0], 8);
      DecodeOfEncode(b[0], 8);
      EncodeWordsInjective(a[1..], b[1..]);
    }
  }

  lemma {:induction false} PostingsInjective(a: seq<Entry>, b: seq<Entry>)
    requires SameShape(a, b) && Postings(a) == Postings(b)
    ensures a == b
  {
    if a != [] {
      var n := |EntryBytes(a[0])|;
      EncodeWordsLength(a[0].docs);
      EncodeWordsLength(b[0].docs);
      assert Postings(a)[..n] == EntryBytes(a[0]) && Postings(b)[..n] == EntryBytes(b[0]);
      assert Postings(a)[n..] == Postings(a[1..]) && Postings(b)[n..] == Postings(b[1..]);
      assert EntryBytes(a[0])[4..] == EncodeWords(a[0].docs) && EntryBytes(b[0])[4..] == EncodeWords(b[0].docs);
      EncodeWordsInjective(a[0].docs, b[0].docs);
      PostingsInjective(a[1..], b[1..]);
    }
  }

  /** Two indexes of the same shape have the same bytes only if they list the same documents. */
  lemma {:induction false} IndexInjective(a: seq<Entry>, b: seq<Entry>)
    requires SameShape(a, b) && IndexBytes(a) == IndexBytes(b)
    ensures a == b
  {
    var offset := 16 * (|a| + 1);
    HeaderLength(a, offset);
    HeaderLength(b, offset);
    var n := |Header(a, offset) + TERMINATOR|;
    assert IndexBytes(a)[n..] == Postings(a) && IndexBytes(b)[n..] == Postings(b);
    PostingsInjective(a, b);
  }
}
