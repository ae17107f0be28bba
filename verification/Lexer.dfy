/** The shell's lexer: words between blanks, each cut into operators and arguments. */
module Lexer {
  import opened Sequences
  import D = Decimal

  datatype LexType = Subprocess | Pipe | And | Or | Input | Output | Argument

  datatype Lexem = Lexem(text: string, kind: LexType)

  function TakeType(s: string): LexType {
    if |s| == 1 then
      (match s[0]
       case '&' => Subprocess
       case '|' => Pipe
       case '<' => Input
       case '>' => Output
       case _ => Argument)
    else if |s| == 2 && s[0] == s[1] == '&' then And
    else if |s| == 2 && s[0] == s[1] == '|' then Or
    else Argument
  }

  /** Six spellings have a type of their own; every other string is an argument. */
  lemma {:induction false} TypeOfSpelling(s: string)
    ensures TakeType(s) == Subprocess <==> s == "&"
    ensures TakeType(s) == Pipe <==> s == "|"
    ensures TakeType(s) == And <==> s == "&&"
    ensures TakeType(s) == Or <==> s == "||"
    ensures TakeType(s) == Input <==> s == "<"
    ensures TakeType(s) == Output <==> s == ">"
  {
    if |s| == 1 {
      assert s == [s[0]];
    } else if |s| == 2 {
      assert s == [s[0], s[1]];
    }
  }

  /** A character that starts no operator. */
  predicate Plain(c: char) {
    c != '&' && c != '|' && c != '<' && c != '>'
  }

  /** Two characters that make one operator. */
  predicate Doubled(c: char, d: char) {
    c == d && (c == '&' || c == '|')
  }

  /** The length of the longest prefix of plain characters. */
  function PlainPrefix(w: string): (n: nat)
    ensures n <= |w| && (forall i :: 0 <= i < n ==> Plain(w[i])) && (n < |w| ==> !Plain(w[n]))
  {
    if w == "" || !Plain(w[0]) then 0 else 1 + PlainPrefix(w[1..])
  }

  /** The length of the operator at the front of `w`, the longer one first; 0 if there is none. */
  function OperatorAt(w: string): (n: nat)
    requires w != ""
    ensures n <= |w|
  {
    if |w| >= 2 && Doubled(w[0], w[1]) then 2 else if Plain(w[0]) then 0 else 1
  }

  /** The length of the longest lexem a word starts with. */
  function FirstLen(w: string): (n: nat)
    requires w != ""
    ensures 0 < n <= |w|
  {
    if OperatorAt(w) > 0 then OperatorAt(w) else PlainPrefix(w)
  }

  function LexemOf(s: string): Lexem {
    Lexem(s, TakeType(s))
  }

  /** The leftmost-longest cut of a word into lexems. */
  function Leftmost(w: string): seq<Lexem>
    decreases |w|
  {
    if w == "" then [] else [LexemOf(w[..FirstLen(w)])] + Leftmost(w[FirstLen(w)..])
  }

  function SkipBlanks(s: string): (r: string)
    ensures |r| <= |s| && (r != "" ==> !D.IsBlank(r[0]))
  {
    if s != "" && D.IsBlank(s[0]) then SkipBlanks(s[1..]) else s
  }

  function WordEnd(s: string): (n: nat)
    ensures n <= |s| && (forall i :: 0 <= i < n ==> !D.IsBlank(s[i])) && (n < |s| ==> D.IsBlank(s[n]))
  {
    if s == "" || D.IsBlank(s[0]) then 0 else 1 + WordEnd(s[1..])
  }

  /** The lexems of an input line. */
  function Tokens(s: string): seq<Lexem>
    decreases |s|
  {
    var r := SkipBlanks(s);
    if r == "" then [] else Leftmost(r[..WordEnd(r)]) + Tokens(r[WordEnd(r)..])
  }

  lemma {:induction false} PlainPrefixIs(w: string, n: nat)
    requires n <= |w| && (forall i :: 0 <= i < n ==> Plain(w[i])) && (n < |w| ==> !Plain(w[n]))
    ensures PlainPrefix(w) == n
  {
  }

  /** A word of plain characters is one argument; the empty word is none. */
  function Pending(w: string): seq<Lexem> {
    if w == "" then [] else [Lexem(w, Argument)]
  }

  lemma {:induction false} AllPlain(w: string)
    requires forall i :: 0 <= i < |w| ==> Plain(w[i])
    ensures Leftmost(w) == Pending(w)
  {
    if w != "" {
      PlainPrefixIs(w, |w|);
      assert w[..|w|] == w;
    }
  }

  /** An argument ends where the next operator starts. */
  lemma {:induction false} ArgumentThenOperator(w: string, k: nat)
    requires k < |w| && (forall i :: 0 <= i < k ==> Plain(w[i])) && !Plain(w[k])
    ensures Leftmost(w) == Pending(w[..k]) + Leftmost(w[k..])
  {
    if k > 0 {
      PlainPrefixIs(w, k);
    } else {
      assert w[k..] == w;
    }
  }

  lemma {:induction false} Slices(t: string, p: nat, m: nat, e: nat)
    requires p <= m <= e <= |t|
    ensures t[p..][m - p..] == t[m..] && t[p..][..m - p] == t[p..m]
    ensures t[m..][..e - m] == t[m..e] && t[m..][e - m..] == t[e..]
  {
  }

  lemma {:induction false} OperatorStep(temp: string, p: nat, m: nat)
    requires p <= m < |temp| && (forall k :: p <= k < m ==> Plain(temp[k])) && OperatorAt(temp[m..]) > 0
    ensures m + OperatorAt(temp[m..]) <= |temp|
    ensures Leftmost(temp[p..]) == Pending(temp[p..m]) + Leftmost(temp[m..])
    ensures Leftmost(temp[m..])
         == [LexemOf(temp[m..m + OperatorAt(temp[m..])])] + Leftmost(temp[m + OperatorAt(temp[m..])..])
  {
    Slices(temp, p, m, m + OperatorAt(temp[m..]));
    assert !Plain(temp[m..][0]);
    ArgumentThenOperator(temp[p..], m - p);
  }

  /** The scan of a word: the lexems so far and the cut of the text from `prev` on make up the whole. */
  ghost predicate Scan(before: seq<Lexem>, now: seq<Lexem>, temp: string, prev: nat, it: nat) {
    prev <= it <= |temp| && (forall k :: prev <= k < it ==> Plain(temp[k]))
    && now + Leftmost(temp[prev..]) == before + Leftmost(temp)
  }

  lemma {:induction false} ScanStarts(before: seq<Lexem>, temp: string)
    ensures Scan(before, before, temp, 0, 0)
  {
    assert temp[0..] == temp;
  }

  lemma {:induction false} ScanPlain(before: seq<Lexem>, now: seq<Lexem>, temp: string, prev: nat, it: nat)
    requires Scan(before, now, temp, prev, it) && it < |temp| && Plain(temp[it])
    ensures Scan(before, now, temp, prev, it + 1)
  {
  }

  lemma {:induction false} ScanOperator(before: seq<Lexem>, now: seq<Lexem>, temp: string, prev: nat, it: nat, i: nat)
    requires Scan(before, now, temp, prev, it) && it < |temp| && i == OperatorAt(temp[it..]) > 0
    ensures it + i <= |temp|
    ensures Scan(before, now + Pending(temp[prev..it]) + [LexemOf(temp[it..it + i])], temp, it + i, it + i)
  {
    OperatorStep(temp, prev, it);
    ConcatAssociative(now, Pending(temp[prev..it]), Leftmost(temp[it..]));
    ConcatAssociative(now + Pending(temp[prev..it]), [LexemOf(temp[it..it + i])], Leftmost(temp[it + i..]));
  }

  lemma {:induction false} ScanEnds(before: seq<Lexem>, now: seq<Lexem>, temp: string, prev: nat)
    requires Scan(before, now, temp, prev, |temp|)
    ensures now + Pending(temp[prev..]) == before + Leftmost(temp)
  {
    AllPlain(temp[prev..]);
  }

  class LexemParser {
    const input_: string
    var lexems_: seq<Lexem>

    constructor (s: string)
      ensures input_ == s && lexems_ == []
    {
      input_ := s;
      lexems_ := [];
    }

    /** Appends the lexems of the input line. */
    method Parse()
      modifies this
      ensures lexems_ == old(lexems_) + Tokens(input_)
    {
      var rest := input_;
      while SkipBlanks(rest) != ""
        invariant lexems_ + Tokens(rest) == old(lexems_) + Tokens(input_)
        decreases |rest|
      {
        var r := SkipBlanks(rest);
        var temp := r[..WordEnd(r)];
        ghost var before := lexems_;
        ParseWord(temp);
        rest := r[WordEnd(r)..];
        ConcatAssociative(before, Leftmost(temp), Tokens(rest));
      }
    }

    /** Cuts one word: `it1` looks for operators, `prev_it` is where the current argument started. */
    method ParseWord(temp: string)
      modifies this
      ensures lexems_ == old(lexems_) + Leftmost(temp)
    {
      var prev_it: nat, it1: nat := 0, 0;
      ScanStarts(lexems_, temp);
      while it1 < |temp|
        invariant Scan(old(lexems_), lexems_, temp, prev_it, it1)
        decreases |temp| - it1
      {
        var i := FindOperator(temp, it1);
        if i > 0 {
          ScanOperator(old(lexems_), lexems_, temp, prev_it, it1, i);
          PushOperator(temp, prev_it, it1, i);
          prev_it := it1 + i;
          it1 := it1 + i - 1;
        } else {
          ScanPlain(old(lexems_), lexems_, temp, prev_it, it1);
        }
        it1 := it1 + 1;
      }
      ScanEnds(old(lexems_), lexems_, temp, prev_it);
      PushRest(temp, prev_it);
    }

    /** Appends what is left of the word as an argument, if there is anything. */
    method PushRest(temp: string, prev_it: nat)
      requires prev_it <= |temp|
      modifies this
      ensures lexems_ == old(lexems_) + Pending(temp[prev_it..])
    {
      if prev_it != |temp| {
        lexems_ := lexems_ + [Lexem(temp[prev_it..], Argument)];
      }
    }

    /** The length of the operator at `it1`, trying two characters before one; 0 if there is none. */
    method FindOperator(temp: string, it1: nat) returns (i: nat)
      requires it1 < |temp|
      ensures i == OperatorAt(temp[it1..])
      ensures i == 0 ==> Plain(temp[it1])
    {
      ghost var w := temp[it1..];
      i := 2;
      while i >= 1
        invariant i <= 2 && OperatorAt(w) <= i
      {
        if it1 + i <= |temp| {
          var cur_type := TakeType(temp[it1..it1 + i]);
          if cur_type != Argument {
            return;
          }
        }
        i := i - 1;
      }
    }

    /** Appends the argument before the operator, if there is one, and the operator. */
    method PushOperator(temp: string, prev_it: nat, it1: nat, i: nat)
      requires prev_it <= it1 && it1 + i <= |temp|
      modifies this
      ensures lexems_ == old(lexems_) + Pending(temp[prev_it..it1]) + [LexemOf(temp[it1..it1 + i])]
    {
      if prev_it < it1 {
        lexems_ := lexems_ + [Lexem(temp[prev_it..it1], Argument)];
      }
      lexems_ := lexems_ + [Lexem(temp[it1..it1 + i], TakeType(temp[it1..it1 + i]))];
    }
  }

}
